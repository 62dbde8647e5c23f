/**
 Compressing one block (BZ2_blockSort dispatch and the block part of
 BZ2_compressBlock): sort, header, move-to-front, body.
 */
module BlockCompress {
  import opened Bits
  import opened Rotations
  import opened Codes
  import opened Parser
  import opened Printer
  import opened BitWriter
  import Layout
  import opened Expansion
  import St = Stream
  import M = Mtf
  import R = Refine
  import Sd = Sender
  import RL = RunLength
  import PS = PrefixSort
  import S = Suffixes

  // ----- sorting

  /** BZ2_blockSort: prefix doubling below 10000 bytes, otherwise the suffix array of the
      block written twice. */
  method SortBlock(arr2: array<Byte>, nblock: nat, ghost text: seq<Byte>) returns (ptr: array<int>, origPtr: int)
    requires 1 <= nblock < 0x10_0000 && 4 * nblock <= arr2.Length && arr2[..nblock] == text
    modifies arr2
    ensures arr2[..nblock] == text && fresh(ptr) && ptr.Length == nblock
    ensures SortsRotations(text, ptr[..]) && 0 <= origPtr < nblock && ptr[origPtr] == 0
  {
    hide *;
    ptr := new int[nblock];
    if nblock < 10000 {
      var ftab := new nat[65537];
      origPtr := PS.BlockSort(ptr, arr2, ftab, nblock, text);
    } else {
      var doubled := arr2[..nblock] + arr2[..nblock];
      var suffixes := S.SuffixArrayOf(doubled);
      var sa := new int[|suffixes|];
      CopyOut(sa, suffixes);
      origPtr := S.FilterRotations(sa, ptr, nblock, text);
    }
  }

  method CopyOut(a: array<int>, s: seq<int>)
    requires a.Length == |s|
    modifies a
    ensures a[..] == s
  {
    var i := 0;
    while i < |s|
      invariant 0 <= i <= |s| && a[..i] == s[..i]
    {
      a[i] := s[i];
      i := i + 1;
    }
  }

  // The sort array seen as 16-bit halves.
  method AsHalves(ptr: array<int>, n: nat) returns (half: array<UInt16>)
    requires ptr.Length == n < 0x10_0000 && forall i :: 0 <= i < n ==> 0 <= ptr[i] < n
    ensures fresh(half) && half.Length == 2 * n && M.HoldsPtr(half[..], ptr[..])
  {
    half := new UInt16[2 * n];
    var i := 0;
    while i < n
      invariant 0 <= i <= n
      invariant forall k :: 0 <= k < i ==> half[2 * k] as int + 0x1_0000 * (half[2 * k + 1] as int) == ptr[k]
    {
      half[2 * i] := ptr[i] % 0x1_0000;
      half[2 * i + 1] := ptr[i] / 0x1_0000;
      i := i + 1;
    }
  }

  // ----- printing

  // bsPutUChar for each byte of the block magic.
  method PutBlockMagic(w: Writer)
    requires w.Valid() && 48 <= w.Room()
    modifies w, w.arr2
    ensures w.Valid() && w.Emitted() == old(w.Emitted()) + BlockMagicBits(0) && w.Room() == old(w.Room()) - 48
    ensures w.zbase == old(w.zbase) && w.zbase <= w.arr2.Length && w.arr2[..w.zbase] == old(w.arr2[..w.zbase])
  {
    hide Holds, ToBits, BytesToBits, Pow2;
    ghost var e := w.Emitted();
    Pow8();
    var k := 0;
    while k < 6
      invariant 0 <= k <= 6 && w.Valid() && w.Emitted() + BlockMagicBits(k) == e + BlockMagicBits(0)
      invariant w.Room() == old(w.Room()) - 8 * k && w.zbase == old(w.zbase)
        && w.arr2[..w.zbase] == old(w.arr2[..w.zbase])
    {
      MagicStep(w.Emitted(), k);
      w.PutBits(8, BlockMagicByte(k));
      k := k + 1;
    }
    assert BlockMagicBits(6) == [];
    assert w.Emitted() + [] == w.Emitted();
  }

  lemma Pow8()
    ensures Pow2(8) == 256 && Pow2(1) == 2 && Pow2(24) == 0x100_0000
  {
    assert Pow2(8) == 256;
    Pow2Add(8, 8);
    Pow2Add(16, 8);
  }

  lemma MagicStep(e: seq<bool>, k: nat)
    requires k < 6
    ensures 0 <= BlockMagicByte(k) < 256
    ensures e + BlockMagicBits(k) == (e + ToBits(BlockMagicByte(k), 8)) + BlockMagicBits(k + 1)
  {
    hide ToBits;
  }

  // bsPutUInt32
  method PutUInt32(w: Writer, u: nat)
    requires w.Valid() && 32 <= w.Room() && u < 0x1_0000_0000
    modifies w, w.arr2
    ensures w.Valid() && w.Emitted() == old(w.Emitted()) + U32Bits(u) && w.Room() == old(w.Room()) - 32
    ensures w.zbase == old(w.zbase) && w.zbase <= w.arr2.Length && w.arr2[..w.zbase] == old(w.arr2[..w.zbase])
  {
    hide Holds, ToBits, BytesToBits, Pow2;
    Pow8();
    U32Order(w.Emitted(), u);
    w.PutBits(8, u / 0x100_0000 % 256);
    w.PutBits(8, u / 0x1_0000 % 256);
    w.PutBits(8, u / 0x100 % 256);
    w.PutBits(8, u % 256);
  }

  lemma U32Order(e: seq<bool>, u: nat)
    ensures e + U32Bits(u) == e + ToBits(u / 0x100_0000 % 256, 8) + ToBits(u / 0x1_0000 % 256, 8)
      + ToBits(u / 0x100 % 256, 8) + ToBits(u % 256, 8)
  {
    hide ToBits;
  }

  // Magic, CRC, the unused randomisation flag and origPtr.
  method PutBlockHeader(w: Writer, crc: nat, origPtr: nat)
    requires w.Valid() && 105 <= w.Room() && crc < 0x1_0000_0000 && origPtr < 0x100_0000
    modifies w, w.arr2
    ensures w.Valid() && w.Room() == old(w.Room()) - 105
    ensures w.Emitted() == old(w.Emitted()) + BytesToBits([0x31, 0x41, 0x59, 0x26, 0x53, 0x59]) + ToBits(crc, 32)
      + [false] + ToBits(origPtr, 24)
    ensures w.zbase == old(w.zbase) && w.zbase <= w.arr2.Length && w.arr2[..w.zbase] == old(w.arr2[..w.zbase])
  {
    PutBlockMagic(w);
    PutUInt32(w, crc);
    Sd.FlagBit(false);
    Pow8();
    Layout.MagicLiterals();
    Layout.U32Is(crc);
    hide *;
    w.PutBits(1, 0);
    w.PutBits(24, origPtr);
  }

  // What the column needs of the in-use flags.
  lemma ColumnUsed(used: seq<bool>, text: seq<Byte>, ptr: seq<int>)
    requires RL.UsedBy(used, text) && |ptr| == |text| >= 1 && forall i :: 0 <= i < |ptr| ==> 0 <= ptr[i] < |text|
    ensures |LastColumn(text, ptr)| == |text| && M.AllUsed(used, LastColumn(text, ptr))
    ensures 1 <= |Unseq(used, 256)| <= 256
  {
    var l := LastColumn(text, ptr);
    forall i | 0 <= i < |l|
      ensures used[l[i]]
    {
      assert l[i] in text;
    }
    M.SeqIndexInverts(used, l[0]);
  }

  lemma SymbolsInRange(used: seq<bool>, column: seq<Byte>)
    requires |used| == 256 && M.AllUsed(used, column)
    ensures R.Symbols(M.SymbolsOf(used, column), |Unseq(used, 256)| + 2) && 1 <= |M.SymbolsOf(used, column)|
  {
    hide *;
    M.SymbolsUnfold(used, column);
    var n := |Unseq(used, 256)|;
    M.EncodeSize(Iota(n), 0, M.Ranks(used, column), n + 1);
    InRange(M.SymbolsOf(used, column), n);
  }

  lemma InRange(s: seq<int>, n: nat)
    requires forall k :: 0 <= k < |s| ==> 0 <= s[k] <= n + 1
    ensures R.Symbols(s, n + 2)
  {
  }

  lemma PermRange(text: seq<Byte>, ptr: seq<int>)
    requires SortsRotations(text, ptr)
    ensures |ptr| == |text| && forall i :: 0 <= i < |ptr| ==> 0 <= ptr[i] < |text|
  {
  }

  // The pieces of a good record.
  lemma MakeGood(level: int, r: St.Rec, column: seq<Byte>)
    requires 1 <= level <= 9 && SortsRotations(r.text, r.ptr) && 1 <= |r.text| == |r.ptr| <= 100000 * level
      && !Expand(r.text).corrupt
    requires forall i :: 0 <= i < |r.ptr| ==> 0 <= r.ptr[i] < |r.text|
    requires r.x.origPtr < |r.ptr| && r.ptr[r.x.origPtr] == 0 && r.x.crc == St.CrcOf(Expand(r.text).out)
    requires column == LastColumn(r.text, r.ptr) && |r.x.used| == 256 && M.AllUsed(r.x.used, column)
      && r.x.syms == M.SymbolsOf(r.x.used, column)
    requires Sd.Chosen(r.x)
    ensures St.GoodRec(level, r)
  {
    hide SortsRotations, Expand, LastColumn, M.SymbolsOf, R.CompleteCodes, Unseq, Codable, M.AllUsed;
    Sd.ChosenPrintable(level, r.x);
  }

  /** From lengths as MakeCodeLengths makes them and selectors as the refinement leaves them, nothing else
      assumed of the tables: the printed block, whatever follows it, is read back as exactly its column. */
  lemma BlockRoundTrip(level: int, x: BlockText, column: seq<Byte>, tail: seq<bool>)
    requires Sd.Chosen(x) && 1 <= level <= 9 && x.crc < 0x1_0000_0000 && x.origPtr < |column| <= 100000 * level
    requires M.AllUsed(x.used, column) && x.syms == M.SymbolsOf(x.used, column)
    ensures |x.used| == 256 && (forall k :: 0 <= k < |x.sel| ==> 0 <= x.sel[k] < |x.lens|)
    ensures (forall t :: 0 <= t < |x.lens| ==> ValidLens(x.lens[t])) && Codable(x.lens, x.sel, x.syms)
    ensures Ok(BlockMagic(level, 0))
    ensures RunBits(BlockMagic(level, 0), BlockBits(x) + tail) == (Output(HeaderOf(level, x), column), tail)
  {
    hide *;
    Sd.ChosenBody(x);
    Sd.ChosenPrintable(level, x);
    ChosenEncodes(level, x, column);
    M.SymbolsDecode(level, x, column);
    ReadBlock(level, x, column, tail);
  }

  lemma ChosenEncodes(level: int, x: BlockText, column: seq<Byte>)
    requires Sd.Chosen(x) && Printable(level, x) && x.origPtr < |column| <= 100000 * level
    requires M.AllUsed(x.used, column) && x.syms == M.SymbolsOf(x.used, column)
    ensures M.Encodes(level, x, column)
  {
    hide Printable, M.AllUsed, M.SymbolsOf, R.CompleteCodes, Unseq;
  }

  // The frequencies are the counts of the block's symbols, the tables and selectors those chosen by them.
  ghost predicate ChosenFrom(freq: seq<int>, x: BlockText)
    requires |x.used| == 256
  {
    var n := |Unseq(x.used, 256)|;
    M.Tallies(freq, x.syms, n + 1) && R.ChosenBy(freq, x.syms, n + 2, x.lens, x.sel)
  }

  /** The block's tables and selectors are those of four rounds over its symbols, from seeds cut by the
      symbols' own counts. */
  ghost predicate TablesChosen(x: BlockText)
    requires |x.used| == 256
  {
    exists freq: seq<int> :: ChosenFrom(freq, x)
  }

  lemma MakeTablesChosen(freq: seq<int>, n: nat, x: BlockText)
    requires |x.used| == 256 && n == |Unseq(x.used, 256)|
    requires M.Tallies(freq, x.syms, n + 1) && R.ChosenBy(freq, x.syms, n + 2, x.lens, x.sel)
    ensures TablesChosen(x)
  {
    hide M.Tallies, R.ChosenBy, Unseq;
    assert ChosenFrom(freq, x);
  }

  /** The block part of BZ2_compressBlock: the bits written are those of a block that
      decodes to this one. */
  method PrintBlock(w: Writer, inUse: array<bool>, ptr: array<int>, origPtr: nat, nblock: nat, crc: nat, level: int,
                    ghost text: seq<Byte>)
    returns (ghost r: St.Rec)
    requires 1 <= level <= 9 && 1 <= nblock <= 100000 * level && w.zbase == nblock <= w.arr2.Length
      && w.arr2[..nblock] == text
    requires inUse.Length == 256 && RL.UsedBy(inUse[..], text) && !Expand(text).corrupt
      && crc == St.CrcOf(Expand(text).out)
    requires ptr.Length == nblock && SortsRotations(text, ptr[..]) && origPtr < nblock && ptr[origPtr] == 0
    requires w.Valid() && 17 * nblock + 159532 <= w.Room() && inUse as object != w.arr2 && ptr as object != w.arr2
    modifies w, w.arr2
    ensures St.GoodRec(level, r) && r.text == text && w.Valid() && w.zbase == nblock <= w.arr2.Length
      && w.arr2[..nblock] == text
    ensures |r.x.used| == 256 && (forall k :: 0 <= k < |r.x.sel| ==> 0 <= r.x.sel[k] < |r.x.lens|)
    ensures (forall t :: 0 <= t < |r.x.lens| ==> ValidLens(r.x.lens[t])) && Codable(r.x.lens, r.x.sel, r.x.syms)
    ensures w.Emitted() == old(w.Emitted()) + BlockBits(r.x) && w.Room() >= old(w.Room()) - 17 * nblock - 159532
    ensures TablesChosen(r.x)
  {
    hide *;
    RoomUsed(w);
    ghost var e, s, used := w.Emitted(), ptr[..], inUse[..];
    PermRange(text, s);
    ColumnUsed(used, text, s);
    ghost var column := LastColumn(text, s);
    CrcSmall(text);
    PutBlockHeader(w, crc, origPtr);
    var half := AsHalves(ptr, nblock);
    var unseqToSeq, mtfFreq := new Byte[256], new int[258];
    var nInUse, nMTF := M.GenerateMtfValues(w.arr2, nblock, inUse, unseqToSeq, half, mtfFreq, s, column);
    ghost var freq := mtfFreq[..];
    SymbolsInRange(used, column);
    var selector, selectorMtf := new Byte[18002], new Byte[18002];
    AlphabetSize(used);
    WriterFacts(w);
    ghost var x := Sd.SendMtfValues(w, inUse, nInUse, half, nMTF, mtfFreq, selector, selectorMtf, crc, origPtr);
    r := St.Rec(text, s, x);
    MakeTablesChosen(freq, nInUse, x);
    MakeGood(level, r, column);
    Sd.ChosenBody(x);
    Sd.BodySize(x);
    Layout.MagicLiterals();
    Layout.U32Is(crc);
    BlockOrder(e, x);
    BlockSize(x);
    RoomUsed(w);
  }

  lemma BlockSize(x: BlockText)
    requires |x.used| == 256 && (forall k :: 0 <= k < |x.sel| ==> 0 <= x.sel[k] < |x.lens|)
    requires (forall t :: 0 <= t < |x.lens| ==> ValidLens(x.lens[t])) && Codable(x.lens, x.sel, x.syms)
    ensures |BlockBits(x)| == 105 + |BodyBits(x)|
  {
    hide BodyBits, ToBits, Codable, ValidLens;
    MagicSize(0);
  }

  lemma {:induction false} MagicSize(k: nat)
    requires k <= 6
    ensures |BlockMagicBits(k)| == 8 * (6 - k)
    decreases 6 - k
  {
    hide ToBits;
    if k < 6 { MagicSize(k + 1); }
  }

  lemma CrcSmall(text: seq<Byte>)
    ensures St.CrcOf(Expand(text).out) < 0x1_0000_0000
  {
    hide Expand;
  }

  lemma AlphabetSize(used: seq<bool>)
    requires |used| == 256
    ensures M.SeqIndex(used, 256) == |Unseq(used, 256)|
  {
  }

  lemma WriterFacts(w: Writer)
    requires w.Valid()
    ensures w.zbase + w.numZ <= w.arr2.Length && 0 <= w.bsLive
  {
    hide Holds;
  }

  lemma RoomUsed(w: Writer)
    requires w.Valid()
    ensures w.zbase + w.numZ <= w.arr2.Length && 0 <= w.bsLive
      && w.Room() == 8 * (w.arr2.Length - w.zbase) - |w.Emitted()|
  {
    hide Holds, ToBits, BytesToBits;
  }

  lemma BlockOrder(e: seq<bool>, x: BlockText)
    requires |x.used| == 256 && (forall k :: 0 <= k < |x.sel| ==> 0 <= x.sel[k] < |x.lens|)
    requires (forall t :: 0 <= t < |x.lens| ==> ValidLens(x.lens[t])) && Codable(x.lens, x.sel, x.syms)
    ensures e + BlockMagicBits(0) + U32Bits(x.crc) + [false] + ToBits(x.origPtr, 24) + BodyBits(x) == e + BlockBits(x)
  {
    hide BodyBits, ToBits, U32Bits, BlockMagicBits, Codable, ValidLens;
  }
}
