/**
 Whole streams: what a decoder makes of a string of bits, and the theorem that it
 makes of a compressed stream exactly what was compressed.
 */
module Stream {
  import opened Bits
  import opened Rotations
  import opened Codes
  import opened Parser
  import opened Printer
  import opened Expansion
  import IB = InverseBwt
  import M = Mtf
  import O = Output
  import S = Suffixes
  import Crc
  import Gf2
  import Layout

  // ----- per-block operations shared by both ends, and what they do to each bit

  // ~crc
  function Finalised(c: nat): nat
    requires c < Gf2.TOP32
  {
    0xffff_ffff - c
  }

  // (combined << 1 | combined >> 31) ^ crc
  function Combine(combined: nat, crc: nat): (r: nat)
    requires combined < Gf2.TOP32 && crc < Gf2.TOP32
    ensures r < Gf2.TOP32
  {
    RotateBound(combined);
    Gf2.XorBound32(2 * combined % Gf2.TOP32 + combined / Gf2.TOP31, crc);
    Gf2.Xor(2 * combined % Gf2.TOP32 + combined / Gf2.TOP31, crc)
  }

  lemma RotateBound(c: nat)
    requires c < Gf2.TOP32
    ensures 2 * c % Gf2.TOP32 + c / Gf2.TOP31 < Gf2.TOP32
  {
  }

  lemma {:induction false} InvertedBits(c: nat, n: nat, j: nat)
    requires c < Pow2(n) && j < n
    ensures ToBits(Pow2(n) - 1 - c, n)[j] == !ToBits(c, n)[j]
    decreases n
  {
    var d: nat := Pow2(n) - 1 - c;
    assert d / 2 == Pow2(n - 1) - 1 - c / 2 && d % 2 == 1 - c % 2;
    if j < n - 1 { InvertedBits(c / 2, n - 1, j); }
  }

  /** The stored CRC is the running one with all 32 bits inverted. */
  lemma FinalisedBits(c: nat, j: nat)
    requires c < Gf2.TOP32 && j < 32
    ensures ToBits(Finalised(c), 32)[j] == !ToBits(c, 32)[j]
  {
    hide ToBits;
    Pow2Is64();
    InvertedBits(c, 32, j);
  }

  lemma RotateParts(c: nat)
    requires c < Gf2.TOP32
    ensures var x, t := 2 * c % Gf2.TOP32 + c / Gf2.TOP31, c / Gf2.TOP31;
      t < 2 && x / 2 == c % Gf2.TOP31 && x % 2 == t
  {
  }

  // c rotated left by one.
  lemma RotatedBits(c: nat)
    requires c < Gf2.TOP32
    ensures ToBits(2 * c % Gf2.TOP32 + c / Gf2.TOP31, 32) == ToBits(c, 32)[1..] + ToBits(c, 32)[..1]
  {
    hide *;
    RotateParts(c);
    Gf2.Pow31();
    ToBitsMod(c, 31, 31);
    ShrIsDiv(c, 31);
    ToBitsSplit(c, 1, 31);
    ToBitsSnoc(2 * c % Gf2.TOP32 + c / Gf2.TOP31, 31);
    OneBitOf(c / Gf2.TOP31);
  }

  lemma ToBitsSnoc(v: nat, n: nat)
    ensures ToBits(v, n + 1) == ToBits(v / 2, n) + [v % 2 == 1]
  {
  }

  lemma OneBitOf(t: nat)
    requires t < 2
    ensures ToBits(t, 1) == [t % 2 == 1]
  {
  }

  /** The combined CRC is rotated left by one bit, and the block's CRC added to it. */
  lemma CombineBits(c: nat, d: nat, j: nat)
    requires c < Gf2.TOP32 && d < Gf2.TOP32 && j < 32
    ensures ToBits(Combine(c, d), 32)[j] == (ToBits(c, 32)[(j + 1) % 32] != ToBits(d, 32)[j])
  {
    hide ToBits;
    RotatedBits(c);
    Gf2.XorBits(2 * c % Gf2.TOP32 + c / Gf2.TOP31, d, 32, j);
  }

  // ----- the combined CRC in closed form

  // Whether, among the first k of these CRCs, an odd number have the bit set that comes to place j: block i's
  // has been rotated once for every block after it.
  ghost function OddBits(crcs: seq<nat>, j: nat, k: nat): bool
    requires k <= |crcs|
    decreases k
  {
    k != 0 && OddBits(crcs, j, k - 1) != ToBits(crcs[k - 1], 32)[(j + (|crcs| - k)) % 32]
  }

  ghost function Folded(crcs: seq<nat>, c: nat): (r: nat)
    requires c < Gf2.TOP32 && forall i :: 0 <= i < |crcs| ==> crcs[i] < Gf2.TOP32
    ensures r < Gf2.TOP32
    decreases |crcs|
  {
    if crcs == [] then c else Combine(Folded(crcs[..|crcs| - 1], c), crcs[|crcs| - 1])
  }

  lemma {:induction false} OddBitsShift(crcs: seq<nat>, d: nat, j: nat, k: nat)
    requires k <= |crcs|
    ensures OddBits(crcs + [d], j, k) == OddBits(crcs, (j + 1) % 32, k)
    decreases k
  {
    hide ToBits;
    if k != 0 {
      OddBitsShift(crcs, d, j, k - 1);
      OneMorePlace(j, |crcs| - k);
      var more := crcs + [d];
      assert more[k - 1] == crcs[k - 1] && |more| - k == |crcs| - k + 1;
    }
  }

  lemma OneMorePlace(j: nat, m: nat)
    ensures (j + (m + 1)) % 32 == ((j + 1) % 32 + m) % 32
  {
  }

  /** Bit j of the combined CRC of blocks is the parity, over the blocks, of the bit that has been
      rotated to place j. */
  lemma {:induction false} FoldedBits(crcs: seq<nat>, j: nat)
    requires j < 32 && forall i :: 0 <= i < |crcs| ==> crcs[i] < Gf2.TOP32
    ensures ToBits(Folded(crcs, 0), 32)[j] == OddBits(crcs, j, |crcs|)
    decreases |crcs|
  {
    hide Combine, ToBits, OddBits;
    OddBitsUnfold(crcs, j);
    if crcs == [] {
      ZeroBits(32, j);
    } else {
      var front, d := crcs[..|crcs| - 1], crcs[|crcs| - 1];
      FoldedBits(front, (j + 1) % 32);
      CombineBits(Folded(front, 0), d, j);
      assert crcs == front + [d];
      OddBitsShift(front, d, j, |front|);
    }
  }

  ghost function ParityBits(crcs: seq<nat>): (b: seq<bool>)
    ensures |b| == 32 && forall j :: 0 <= j < 32 ==> b[j] == OddBits(crcs, j, |crcs|)
  {
    seq(32, j requires 0 <= j < 32 => OddBits(crcs, j, |crcs|))
  }

  /** The combined CRC in closed form. */
  lemma FoldedParity(crcs: seq<nat>)
    requires forall i :: 0 <= i < |crcs| ==> crcs[i] < Gf2.TOP32
    ensures ToBits(Folded(crcs, 0), 32) == ParityBits(crcs)
  {
    hide Folded, ToBits, OddBits;
    forall j | 0 <= j < 32
      ensures ToBits(Folded(crcs, 0), 32)[j] == ParityBits(crcs)[j]
    {
      FoldedBits(crcs, j);
    }
  }

  lemma OddBitsUnfold(crcs: seq<nat>, j: nat)
    requires j < 32
    ensures crcs == [] ==> !OddBits(crcs, j, 0)
    ensures crcs != [] ==>
      OddBits(crcs, j, |crcs|) == (OddBits(crcs, j, |crcs| - 1) != ToBits(crcs[|crcs| - 1], 32)[j])
  {
    hide ToBits;
  }

  lemma {:induction false} ZeroBits(n: nat, j: nat)
    requires j < n
    ensures !ToBits(0, n)[j]
    decreases n
  {
    if j < n - 1 { ZeroBits(n - 1, j); }
  }

  function CrcOf(s: seq<Byte>): (r: nat)
    ensures r < Gf2.TOP32
  {
    O.NothingYet();
    Finalised(Crc.Update(Crc.CRC_INIT, s))
  }

  ghost function InverseOf(l: seq<Byte>): (p: seq<int>)
    ensures |p| == |l| && forall k :: 0 <= k < |l| ==> 0 <= p[k] < |l| && IB.Target(l, p[k]) == k
  {
    IB.TVectorIsPerm(l);
    var t := IB.TVector(l);
    seq(|l|, k requires 0 <= k < |l| => S.RankOf(t, k))
  }

  // The block behind a column.
  ghost function Unsort(l: seq<Byte>, orig: nat, level: int): (b: seq<Byte>)
    requires orig < |l| <= 100000 * level <= 900000
    ensures |b| == |l|
  {
    O.Fetched(O.Source(l, InverseOf(l), orig, level))[..|l|]
  }

  lemma UnsortSorted(b: seq<Byte>, ptr: seq<int>, orig: nat, level: int)
    requires SortsRotations(b, ptr) && orig < |b| <= 100000 * level <= 900000 && ptr[orig] == 0
    ensures |LastColumn(b, ptr)| == |b| && Unsort(LastColumn(b, ptr), orig, level) == b
  {
    hide IB.InvertsT, SortsRotations, LastColumn, InverseOf, O.Fetched;
    O.LastColumnSize(b, ptr);
    var l := LastColumn(b, ptr);
    InverseInverts(l);
    O.FetchedIsBlock(O.Source(l, InverseOf(l), orig, level), b, ptr);
  }

  lemma InverseInverts(l: seq<Byte>)
    ensures IB.InvertsT(l, InverseOf(l))
  {
    hide InverseOf;
  }

  // ----- decoding a string of bits

  datatype Verdict =
    | StreamEnd(rest: seq<bool>)
    | DataError(magic: bool)   // magic: the stream header was wrong
    | Randomised
    | MoreInput(p: Parser, rest: seq<bool>, combined: nat)

  datatype Decoded = Decoded(out: seq<Byte>, verdict: Verdict)

  function After(s: seq<Byte>, d: Decoded): Decoded {
    Decoded(s + d.out, d.verdict)
  }

  // The block at Output has been expanded and checked.
  ghost predicate BlockFine(h: Header, column: seq<Byte>)
    requires h.origPtr < |column| <= 100000 * h.level <= 900000
  {
    var e := Expand(Unsort(column, h.origPtr, h.level));
    !e.corrupt && CrcOf(e.out) == h.crc
  }

  /** What BZ2_bzDecompress makes of a string of bits, all output taken. */
  ghost function Session(p: Parser, bits: seq<bool>, combined: nat): Decoded
    requires Ok(p) && combined < Gf2.TOP32
    decreases |bits|, if p.Output? then 1 else 0
  {
    RunBitsEnds(p, bits);
    RunBitsProgress(p, bits);
    var (q, rest) := RunBits(p, bits);
    match q
    case Output(h, column) =>
      OutputFacts(h, column);
      if h.randomised then Decoded([], Randomised)
      else if !BlockFine(h, column) then Decoded([], DataError(false))
      else
        After(Expand(Unsort(column, h.origPtr, h.level)).out,
              Session(BlockMagic(h.level, 0), rest, Combine(combined, h.crc)))
    case Done(crc) => Decoded([], if crc == combined then StreamEnd(rest) else DataError(false))
    case Failed(error) => Decoded([], DataError(error == BadMagic))
    case _ => Decoded([], MoreInput(q, rest, combined))
  }

  lemma OutputFacts(h: Header, column: seq<Byte>)
    requires Ok(Output(h, column))
    ensures h.origPtr < |column| <= 100000 * h.level <= 900000 && h.crc < Gf2.TOP32 && Ok(BlockMagic(h.level, 0))
  {
  }

  lemma RunBitsProgress(p: Parser, bits: seq<bool>)
    requires Ok(p)
    ensures |RunBits(p, bits).1| <= |bits|
    ensures !Terminal(p) && Terminal(RunBits(p, bits).0) ==> |RunBits(p, bits).1| < |bits|
  {
    RunBitsEnds(p, bits);
    if !Terminal(p) && |bits| >= Need(p) {
      var n := Need(p);
      ToBitsVal(bits[..n]);
      NextOk(p, Val(bits[..n]));
      RunBitsEnds(Next(p, Val(bits[..n])), bits[n..]);
    }
    hide Ok, Next, Val;
  }

  lemma SessionUnfold(p: Parser, bits: seq<bool>, combined: nat)
    requires Ok(p) && combined < Gf2.TOP32
    ensures var (q, rest) := RunBits(p, bits);
      && Ok(q)
      && (q.Done? ==>
          Session(p, bits, combined) == Decoded([], if q.crc == combined then StreamEnd(rest) else DataError(false)))
      && (q.Failed? ==> Session(p, bits, combined) == Decoded([], DataError(q.error == BadMagic)))
      && (!Terminal(q) ==> Session(p, bits, combined) == Decoded([], MoreInput(q, rest, combined)))
    ensures var (q, rest) := RunBits(p, bits); q.Output? ==>
      && q.h.origPtr < |q.column| <= 100000 * q.h.level <= 900000 && q.h.crc < Gf2.TOP32 && Ok(BlockMagic(q.h.level, 0))
      && Session(p, bits, combined) == (if q.h.randomised then Decoded([], Randomised)
         else if !BlockFine(q.h, q.column) then Decoded([], DataError(false))
         else After(Expand(Unsort(q.column, q.h.origPtr, q.h.level)).out,
                    Session(BlockMagic(q.h.level, 0), rest, Combine(combined, q.h.crc))))
  {
    RunBitsEnds(p, bits);
    var (q, rest) := RunBits(p, bits);
    if q.Output? { OutputFacts(q.h, q.column); }
    hide Ok, RunBits, BlockFine, Combine, Unsort, Expand;
  }

  /** How the input is cut up does not matter: a session that ran out of input goes on,
      with more, exactly as one that had it all. */
  lemma {:induction false} SessionSplit(p: Parser, x: seq<bool>, y: seq<bool>, combined: nat)
    requires Ok(p) && combined < Gf2.TOP32
    ensures var d := Session(p, x, combined);
      d.verdict.MoreInput? ==>
        && Ok(d.verdict.p) && d.verdict.combined < Gf2.TOP32
        && Session(p, x + y, combined) == After(d.out, Session(d.verdict.p, d.verdict.rest + y, d.verdict.combined))
    decreases |x|, if p.Output? then 1 else 0
  {
    hide *;
    SessionUnfold(p, x, combined);
    SessionUnfold(p, x + y, combined);
    RunBitsSplit(p, x, y);
    RunBitsProgress(p, x);
    var (q, rest) := RunBits(p, x);
    TerminalShapes(q);
    if Terminal(q) {
      StaysTerminal(q, rest + y);
      TerminalShapes(p);
      if Terminal(p) { StaysTerminal(p, x); }
      if q.Output? && Session(p, x, combined).verdict.MoreInput? {
        CombineBound(combined, q.h.crc);
        var out, c' := Expand(Unsort(q.column, q.h.origPtr, q.h.level)).out, Combine(combined, q.h.crc);
        var inner := Session(BlockMagic(q.h.level, 0), rest, c');
        AfterIs(out, inner);
        NotOutput(q.h.level);
        SessionSplit(BlockMagic(q.h.level, 0), rest, y, c');
        AfterTwice(out, inner.out, Session(inner.verdict.p, inner.verdict.rest + y, inner.verdict.combined));
      }
    } else {
      SessionUnfold(q, rest + y, combined);
      AfterNothing(Session(q, rest + y, combined));
      SameRun(p, x + y, q, rest + y, combined);
    }
  }

  /** More input never takes back what has been put out, nor a verdict already given. */
  lemma {:induction false} SessionGrows(p: Parser, x: seq<bool>, y: seq<bool>, combined: nat)
    requires Ok(p) && combined < Gf2.TOP32
    ensures var d, e := Session(p, x, combined), Session(p, x + y, combined);
      && d.out <= e.out
      && (d.verdict.StreamEnd? ==> e == Decoded(d.out, StreamEnd(d.verdict.rest + y)))
      && (d.verdict.DataError? || d.verdict.Randomised? ==> e == d)
    decreases |x|, if p.Output? then 1 else 0
  {
    hide *;
    SessionUnfold(p, x, combined);
    SessionUnfold(p, x + y, combined);
    RunBitsSplit(p, x, y);
    RunBitsProgress(p, x);
    var (q, rest) := RunBits(p, x);
    TerminalShapes(q);
    if Terminal(q) {
      StaysTerminal(q, rest + y);
      TerminalShapes(p);
      if Terminal(p) { StaysTerminal(p, x); }
      if q.Output? && !q.h.randomised && BlockFine(q.h, q.column) {
        CombineBound(combined, q.h.crc);
        var out, c' := Expand(Unsort(q.column, q.h.origPtr, q.h.level)).out, Combine(combined, q.h.crc);
        NotOutput(q.h.level);
        SessionGrows(BlockMagic(q.h.level, 0), rest, y, c');
        AfterIs(out, Session(BlockMagic(q.h.level, 0), rest, c'));
        AfterIs(out, Session(BlockMagic(q.h.level, 0), rest + y, c'));
      }
    } else {
      assert Session(p, x, combined) == Decoded([], MoreInput(q, rest, combined));
    }
  }

  lemma NotOutput(level: int)
    ensures !BlockMagic(level, 0).Output?
  {
  }

  lemma CombineBound(combined: nat, crc: nat)
    requires combined < Gf2.TOP32 && crc < Gf2.TOP32
    ensures Combine(combined, crc) < Gf2.TOP32
  {
    hide *;
  }

  lemma AfterIs(s: seq<Byte>, d: Decoded)
    ensures After(s, d).verdict == d.verdict && After(s, d).out == s + d.out
  {
  }

  lemma AfterTwice(a: seq<Byte>, c: seq<Byte>, d: Decoded)
    ensures After(a, After(c, d)) == After(a + c, d)
  {
    assert a + (c + d.out) == a + c + d.out;
  }

  lemma AfterNothing(d: Decoded)
    ensures After([], d) == d
  {
    assert [] + d.out == d.out;
  }

  lemma TerminalShapes(q: Parser)
    ensures Terminal(q) <==> q.Output? || q.Done? || q.Failed?
  {
  }

  // Sessions that reach the same place go on alike.
  lemma SameRun(p: Parser, a: seq<bool>, q: Parser, c: seq<bool>, combined: nat)
    requires Ok(p) && Ok(q) && combined < Gf2.TOP32 && RunBits(p, a) == RunBits(q, c)
    ensures Session(p, a, combined) == Session(q, c, combined)
  {
    hide *;
    SessionUnfold(p, a, combined);
    SessionUnfold(q, c, combined);
    TerminalShapes(RunBits(p, a).0);
  }

  // ----- a compressed stream

  // One block as the compressor printed it.
  datatype Rec = Rec(text: seq<Byte>, ptr: seq<int>, x: BlockText)

  ghost predicate GoodRec(level: int, r: Rec) {
    && SortsRotations(r.text, r.ptr) && r.text != [] && !Expand(r.text).corrupt
    && r.x.origPtr < |r.ptr| && r.ptr[r.x.origPtr] == 0
    && |LastColumn(r.text, r.ptr)| == |r.text| && M.Encodes(level, r.x, LastColumn(r.text, r.ptr))
    && r.x.crc == CrcOf(Expand(r.text).out)
  }

  ghost predicate GoodRecs(level: int, recs: seq<Rec>) {
    1 <= level <= 9 && forall i :: 0 <= i < |recs| ==> GoodRec(level, recs[i])
  }

  lemma GoodPrintable(level: int, r: Rec)
    requires GoodRec(level, r)
    ensures Printable(level, r.x) && 1 <= level <= 9 && r.x.crc < Gf2.TOP32
    ensures |r.x.used| == 256 && (forall k :: 0 <= k < |r.x.sel| ==> 0 <= r.x.sel[k] < |r.x.lens|)
    ensures (forall t :: 0 <= t < |r.x.lens| ==> ValidLens(r.x.lens[t])) && Codable(r.x.lens, r.x.sel, r.x.syms)
  {
    hide SortsRotations, Codable, LastColumn, M.SymbolsOf, Expand, CrcOf;
  }

  // The bits of the blocks, one after the other.
  ghost function BlocksBits(level: int, recs: seq<Rec>): seq<bool>
    requires GoodRecs(level, recs)
    decreases |recs|
  {
    if recs == [] then []
    else
      GoodPrintable(level, recs[0]);
      BlockBits(recs[0].x) + BlocksBits(level, recs[1..])
  }

  ghost function Texts(recs: seq<Rec>): seq<Byte>
    decreases |recs|
  {
    if recs == [] then [] else Expand(recs[0].text).out + Texts(recs[1..])
  }

  // The combined CRC after the blocks.
  ghost function Combined(recs: seq<Rec>, c: nat): (r: nat)
    requires c < Gf2.TOP32 && forall i :: 0 <= i < |recs| ==> recs[i].x.crc < Gf2.TOP32
    ensures r < Gf2.TOP32
    decreases |recs|
  {
    if recs == [] then c else Combined(recs[1..], Combine(c, recs[0].x.crc))
  }

  lemma {:induction false} CombinedSnoc(recs: seq<Rec>, r: Rec, c: nat)
    requires c < Gf2.TOP32 && r.x.crc < Gf2.TOP32 && forall i :: 0 <= i < |recs| ==> recs[i].x.crc < Gf2.TOP32
    ensures Combined(recs + [r], c) == Combine(Combined(recs, c), r.x.crc)
    decreases |recs|
  {
    hide Combine;
    if recs == [] {
      assert [r][1..] == [];
    } else {
      CombinedSnoc(recs[1..], r, Combine(c, recs[0].x.crc));
      assert (recs + [r])[1..] == recs[1..] + [r];
    }
  }

  ghost function Crcs(recs: seq<Rec>): (crcs: seq<nat>)
    ensures |crcs| == |recs| && forall i :: 0 <= i < |recs| ==> crcs[i] == recs[i].x.crc
  {
    seq(|recs|, i requires 0 <= i < |recs| => recs[i].x.crc)
  }

  lemma {:induction false} CombinedFolded(recs: seq<Rec>, c: nat)
    requires c < Gf2.TOP32 && forall i :: 0 <= i < |recs| ==> recs[i].x.crc < Gf2.TOP32
    ensures Combined(recs, c) == Folded(Crcs(recs), c)
    decreases |recs|
  {
    hide Combine;
    if recs != [] {
      var front, r := recs[..|recs| - 1], recs[|recs| - 1];
      CombinedFolded(front, c);
      CombinedSnoc(front, r, c);
      assert recs == front + [r] && Crcs(recs)[..|front|] == Crcs(front);
    }
  }

  lemma GoodCrcs(level: int, recs: seq<Rec>)
    requires GoodRecs(level, recs)
    ensures forall i :: 0 <= i < |recs| ==> recs[i].x.crc < Gf2.TOP32
  {
    hide GoodRec;
    forall i | 0 <= i < |recs|
      ensures recs[i].x.crc < Gf2.TOP32
    {
      GoodPrintable(level, recs[i]);
    }
  }

  // One block is read back, and is fine.
  lemma ReadRec(level: int, r: Rec, tail: seq<bool>)
    requires GoodRec(level, r) && Printable(level, r.x)
    requires |r.x.used| == 256 && (forall k :: 0 <= k < |r.x.sel| ==> 0 <= r.x.sel[k] < |r.x.lens|)
    requires (forall t :: 0 <= t < |r.x.lens| ==> ValidLens(r.x.lens[t])) && Codable(r.x.lens, r.x.sel, r.x.syms)
    ensures |LastColumn(r.text, r.ptr)| == |r.text| && r.x.origPtr < |r.text| <= 100000 * level <= 900000
    ensures var h, column := HeaderOf(level, r.x), LastColumn(r.text, r.ptr);
      && Ok(BlockMagic(level, 0)) && RunBits(BlockMagic(level, 0), BlockBits(r.x) + tail) == (Output(h, column), tail)
      && h.level == level && h.crc == r.x.crc && !h.randomised && h.origPtr == r.x.origPtr
      && BlockFine(h, column) && Expand(Unsort(column, h.origPtr, level)) == Expand(r.text)
  {
    hide *;
    RecParts(level, r);
    M.SymbolsDecode(level, r.x, LastColumn(r.text, r.ptr));
    ReadBlock(level, r.x, LastColumn(r.text, r.ptr), tail);
    UnsortSorted(r.text, r.ptr, r.x.origPtr, level);
    HeaderParts(level, r.x);
    FineBlock(HeaderOf(level, r.x), LastColumn(r.text, r.ptr), r.text);
  }

  lemma RecParts(level: int, r: Rec)
    requires GoodRec(level, r)
    ensures SortsRotations(r.text, r.ptr) && |r.ptr| == |r.text| && !Expand(r.text).corrupt
      && r.x.crc == CrcOf(Expand(r.text).out)
    ensures forall k :: 0 <= k < |r.ptr| ==> 0 <= r.ptr[k] < |r.text|
    ensures |LastColumn(r.text, r.ptr)| == |r.text| && M.Encodes(level, r.x, LastColumn(r.text, r.ptr))
    ensures r.x.origPtr < |r.text| <= 100000 * level <= 900000 && r.ptr[r.x.origPtr] == 0
  {
    hide LastColumn, M.SymbolsOf, Expand, CrcOf, Codable;
  }

  lemma HeaderParts(level: int, x: BlockText)
    ensures var h := HeaderOf(level, x); h.level == level && h.crc == x.crc && !h.randomised && h.origPtr == x.origPtr
  {
  }

  lemma FineBlock(h: Header, column: seq<Byte>, text: seq<Byte>)
    requires h.origPtr < |column| <= 100000 * h.level <= 900000 && Unsort(column, h.origPtr, h.level) == text
    requires !Expand(text).corrupt && h.crc == CrcOf(Expand(text).out)
    ensures BlockFine(h, column)
  {
    hide Unsort, Expand, CrcOf;
  }

  lemma BlocksCases(level: int, recs: seq<Rec>, tail: seq<bool>)
    requires GoodRecs(level, recs)
    ensures recs == [] ==> BlocksBits(level, recs) + tail == tail && Texts(recs) == []
    ensures recs != [] ==> GoodRec(level, recs[0]) && GoodRecs(level, recs[1..])
    ensures recs != [] ==> (GoodPrintable(level, recs[0]);
      BlocksBits(level, recs) + tail == BlockBits(recs[0].x) + (BlocksBits(level, recs[1..]) + tail))
    ensures recs != [] ==> Texts(recs) == Expand(recs[0].text).out + Texts(recs[1..])
  {
    hide *;
    RecsCases(level, recs);
    if recs == [] {
      assert [] + tail == tail;
    } else {
      GoodPrintable(level, recs[0]);
      Joins(BlockBits(recs[0].x), BlocksBits(level, recs[1..]), tail);
    }
  }

  lemma RecsCases(level: int, recs: seq<Rec>)
    requires GoodRecs(level, recs)
    ensures recs == [] ==> BlocksBits(level, recs) == [] && Texts(recs) == []
    ensures recs != [] ==> GoodRec(level, recs[0]) && GoodRecs(level, recs[1..])
    ensures recs != [] ==> (GoodPrintable(level, recs[0]);
      BlocksBits(level, recs) == BlockBits(recs[0].x) + BlocksBits(level, recs[1..]))
    ensures recs != [] ==> Texts(recs) == Expand(recs[0].text).out + Texts(recs[1..])
  {
    hide GoodRec, Printable, BlockBits, Expand, Codable, ValidLens;
    if recs != [] { GoodPrintable(level, recs[0]); }
  }

  lemma CombinedCases(recs: seq<Rec>, c: nat)
    requires c < Gf2.TOP32 && forall i :: 0 <= i < |recs| ==> recs[i].x.crc < Gf2.TOP32
    ensures recs == [] ==> Combined(recs, c) == c
    ensures recs != [] ==>
      recs[0].x.crc < Gf2.TOP32 && Combined(recs, c) == Combined(recs[1..], Combine(c, recs[0].x.crc))
  {
    hide Combine;
  }

  /** Blocks and trailer decode to the blocks' texts, the trailer's CRC being the fold of theirs. */
  lemma {:induction false} DecodeBlocks(level: int, recs: seq<Rec>, c: nat, tail: seq<bool>)
    requires GoodRecs(level, recs) && c < Gf2.TOP32 && forall i :: 0 <= i < |recs| ==> recs[i].x.crc < Gf2.TOP32
    ensures Ok(BlockMagic(level, 0))
    ensures Session(BlockMagic(level, 0), BlocksBits(level, recs) + (TrailerBits(Combined(recs, c)) + tail), c) ==
      Decoded(Texts(recs), StreamEnd(tail))
    decreases |recs|
  {
    hide *;
    LevelRange(level, recs);
    var more := TrailerBits(Combined(recs, c)) + tail;
    CombinedCases(recs, c);
    BlocksCases(level, recs, more);
    Bound32(Combined(recs, c));
    if recs == [] {
      ReadTrailer(level, c, tail);
      SessionUnfold(BlockMagic(level, 0), more, c);
    } else {
      var r := recs[0];
      GoodPrintable(level, r);
      ReadRec(level, r, BlocksBits(level, recs[1..]) + more);
      SessionUnfold(BlockMagic(level, 0), BlocksBits(level, recs) + more, c);
      DecodeBlocks(level, recs[1..], Combine(c, r.x.crc), tail);
      AfterIs(Expand(r.text).out, Decoded(Texts(recs[1..]), StreamEnd(tail)));
    }
  }

  lemma LevelRange(level: int, recs: seq<Rec>)
    requires GoodRecs(level, recs)
    ensures 1 <= level <= 9
  {
  }

  lemma Bound32(c: nat)
    ensures c < Gf2.TOP32 <==> c < 0x1_0000_0000
  {
  }

  /** The bits of a whole stream. */
  ghost function StreamBits(level: int, recs: seq<Rec>): seq<bool>
    requires GoodRecs(level, recs)
  {
    GoodCrcs(level, recs);
    StreamHeaderBits(level) + BlocksBits(level, recs) + TrailerBits(Combined(recs, 0))
  }

  /** Round trip: a stream of blocks, whatever follows it, decodes to exactly the bytes the
      blocks stand for, passes every CRC check and ends at its last bit. */
  lemma RoundTrip(level: int, recs: seq<Rec>, tail: seq<bool>)
    requires GoodRecs(level, recs)
    ensures Ok(Magic(0)) && Session(Magic(0), StreamBits(level, recs) + tail, 0) ==
      Decoded(Texts(recs), StreamEnd(tail))
  {
    hide *;
    GoodCrcs(level, recs);
    LevelRange(level, recs);
    Bound32(0);
    var more := BlocksBits(level, recs) + (TrailerBits(Combined(recs, 0)) + tail);
    StreamOrder(level, recs, tail);
    ReadStreamHeader(level, more);
    DecodeBlocks(level, recs, 0, tail);
    SameRun(Magic(0), StreamBits(level, recs) + tail, BlockMagic(level, 0), more, 0);
  }

  lemma StreamOrder(level: int, recs: seq<Rec>, tail: seq<bool>)
    requires GoodRecs(level, recs)
    ensures forall i :: 0 <= i < |recs| ==> recs[i].x.crc < Gf2.TOP32
    ensures StreamBits(level, recs) + tail == StreamHeaderBits(level)
      + (BlocksBits(level, recs) + (TrailerBits(Combined(recs, 0)) + tail))
  {
    hide GoodRecs, BlocksBits, TrailerBits, Combined, StreamHeaderBits;
    GoodCrcs(level, recs);
    JoinsFour(StreamHeaderBits(level), BlocksBits(level, recs), TrailerBits(Combined(recs, 0)), tail);
  }

  /** Which error: a session reports a bad magic exactly when one of the first four bytes is wrong. */
  lemma MagicVerdict(s: seq<Byte>)
    ensures Ok(Magic(0)) && 0 < Gf2.TOP32
    ensures Session(Magic(0), BytesToBits(s), 0).verdict == DataError(true) <==> Layout.BadHeader(s)
  {
    hide *;
    var x := BytesToBits(s);
    Bound32(0);
    Layout.HeaderRead(0, s);
    BadHeaderIs(s);
    SessionUnfold(Magic(0), x, 0);
    RunBitsEnds(Magic(0), x);
    var (q, rest) := RunBits(Magic(0), x);
    TerminalShapes(q);
    if q != Failed(BadMagic) && !q.Magic? {
      Suspended(q, rest);
      SameRun(Magic(0), x, q, rest, 0);
      NoMagicVerdict(q, rest, 0);
    }
  }

  lemma BadHeaderIs(s: seq<Byte>)
    ensures Layout.BadHeader(s) <==> exists i :: 0 <= i < 4 - 0 && i < |s| && !Layout.HeaderByte(0 + i, s[i])
  {
    hide Layout.HeaderByte;
    if Layout.BadHeader(s) {
      var i :| 0 <= i < 4 && i < |s| && !Layout.HeaderByte(i, s[i]);
      assert !Layout.HeaderByte(0 + i, s[i]);
    }
  }

  // Past the header there is no bad magic.
  lemma {:induction false} NoMagicVerdict(p: Parser, x: seq<bool>, c: nat)
    requires Ok(p) && c < Gf2.TOP32 && !p.Magic? && p != Failed(BadMagic)
    ensures Session(p, x, c).verdict != DataError(true)
    decreases |x|, if p.Output? then 1 else 0
  {
    hide *;
    SessionUnfold(p, x, c);
    Layout.NoMagicError(p, x);
    RunBitsProgress(p, x);
    var (q, rest) := RunBits(p, x);
    TerminalShapes(q);
    TerminalShapes(p);
    if Terminal(p) { StaysTerminal(p, x); }
    if q.Output? && !q.h.randomised && BlockFine(q.h, q.column) {
      CombineBound(c, q.h.crc);
      NotOutput(q.h.level);
      NoMagicVerdict(BlockMagic(q.h.level, 0), rest, Combine(c, q.h.crc));
      AfterIs(Expand(Unsort(q.column, q.h.origPtr, q.h.level)).out,
              Session(BlockMagic(q.h.level, 0), rest, Combine(c, q.h.crc)));
    }
  }

  // ----- how a session that ends has ended

  ghost function Joined(parts: seq<seq<Byte>>): seq<Byte>
    decreases |parts|
  {
    if parts == [] then [] else parts[0] + Joined(parts[1..])
  }

  ghost function CrcsOf(parts: seq<seq<Byte>>): (crcs: seq<nat>)
    ensures |crcs| == |parts| && forall i :: 0 <= i < |parts| ==> crcs[i] == CrcOf(parts[i]) < Gf2.TOP32
  {
    seq(|parts|, i requires 0 <= i < |parts| => CrcOf(parts[i]))
  }

  lemma {:induction false} FoldedCons(d: nat, crcs: seq<nat>, c: nat)
    requires c < Gf2.TOP32 && d < Gf2.TOP32 && forall i :: 0 <= i < |crcs| ==> crcs[i] < Gf2.TOP32
    ensures Folded([d] + crcs, c) == Folded(crcs, Combine(c, d))
    decreases |crcs|
  {
    hide Combine;
    if crcs == [] {
      assert [d] + crcs == [d] && [d][..0] == [];
      CombineBound(c, d);
    } else {
      var front := crcs[..|crcs| - 1];
      CombineBound(c, d);
      FoldedCons(d, front, c);
      assert ([d] + crcs)[..|crcs|] == [d] + front;
    }
  }

  // The 32 bits in front of rest.
  ghost predicate EndsWith(x: seq<bool>, rest: seq<bool>, crc: nat) {
    && |rest| + 32 <= |x| && x[|x| - |rest|..] == rest
    && x[|x| - |rest| - 32..|x| - |rest|] == ToBits(crc, 32)
  }

  /** A session that reaches the end of its stream has put out blocks whose CRCs were right, and the
      last 32 bits it used are their CRCs combined. */
  lemma {:induction false} SessionEnds(p: Parser, x: seq<bool>, c: nat) returns (parts: seq<seq<Byte>>)
    requires Ok(p) && c < Gf2.TOP32 && !p.EndCrc? && !p.Done? && Session(p, x, c).verdict.StreamEnd?
    ensures Session(p, x, c).out == Joined(parts)
    ensures EndsWith(x, Session(p, x, c).verdict.rest, Folded(CrcsOf(parts), c))
    decreases |x|, if p.Output? then 1 else 0
  {
    hide *;
    SessionUnfold(p, x, c);
    RunBitsProgress(p, x);
    RunBitsEnds(p, x);
    var (q, rest) := RunBits(p, x);
    TerminalShapes(q);
    TerminalShapes(p);
    if Terminal(p) { StaysTerminal(p, x); }
    if q.Done? {
      parts := [];
      Layout.TrailerRead(p, x);
      NoParts(c);
      EndsNow(x, rest, q.crc);
    } else {
      var out, d := Expand(Unsort(q.column, q.h.origPtr, q.h.level)).out, q.h.crc;
      var inner := Session(BlockMagic(q.h.level, 0), rest, Combine(c, d));
      CombineBound(c, d);
      NotOutput(q.h.level);
      AfterIs(out, inner);
      var more := SessionEnds(BlockMagic(q.h.level, 0), rest, Combine(c, d));
      parts := [out] + more;
      FineCrc(q.h, q.column);
      OnePart(out, more, c);
      EndsBehind(x, rest, inner.verdict.rest, Folded(CrcsOf(more), Combine(c, d)));
    }
  }

  lemma NoParts(c: nat)
    requires c < Gf2.TOP32
    ensures Joined([]) == [] && Folded(CrcsOf([]), c) == c
  {
  }

  lemma OnePart(out: seq<Byte>, more: seq<seq<Byte>>, c: nat)
    requires c < Gf2.TOP32
    ensures CrcOf(out) < Gf2.TOP32 && Joined([out] + more) == out + Joined(more)
    ensures Folded(CrcsOf([out] + more), c) == Folded(CrcsOf(more), Combine(c, CrcOf(out)))
  {
    hide Combine, CrcOf, Folded;
    CombineBound(c, CrcOf(out));
    FoldedCons(CrcOf(out), CrcsOf(more), c);
    assert CrcsOf([out] + more) == [CrcOf(out)] + CrcsOf(more);
    assert ([out] + more)[1..] == more;
  }

  lemma FineCrc(h: Header, column: seq<Byte>)
    requires h.origPtr < |column| <= 100000 * h.level <= 900000 && BlockFine(h, column)
    ensures CrcOf(Expand(Unsort(column, h.origPtr, h.level)).out) == h.crc
  {
    hide CrcOf, Expand, Unsort;
  }

  lemma EndsNow(x: seq<bool>, rest: seq<bool>, crc: nat)
    requires |rest| + 32 <= |x| && rest == x[|x| - |rest|..]
    requires x[|x| - |rest| - 32..|x| - |rest|] == ToBits(crc, 32)
    ensures EndsWith(x, rest, crc)
  {
  }

  lemma EndsBehind(x: seq<bool>, y: seq<bool>, rest: seq<bool>, crc: nat)
    requires |y| <= |x| && y == x[|x| - |y|..] && EndsWith(y, rest, crc)
    ensures EndsWith(x, rest, crc)
  {
    hide ToBits;
    var at := |x| - |y|;
    assert y[|y| - |rest| - 32..|y| - |rest|] == x[|x| - |rest| - 32..|x| - |rest|];
  }

  /** The last 32 bits of any stream that decodes to its end: bit j is the parity, over the blocks i of n,
      of bit (j + n - 1 - i) % 32 of the CRC of what block i put out. */
  lemma EndParity(x: seq<bool>) returns (parts: seq<seq<Byte>>)
    requires Ok(Magic(0)) && Session(Magic(0), x, 0).verdict.StreamEnd?
    ensures Session(Magic(0), x, 0).out == Joined(parts)
    ensures var rest := Session(Magic(0), x, 0).verdict.rest;
      |rest| + 32 <= |x| && x[|x| - |rest| - 32..|x| - |rest|] == ParityBits(CrcsOf(parts))
  {
    hide Session, CrcOf, ParityBits, Folded, ToBits, Joined;
    parts := SessionEnds(Magic(0), x, 0);
    FoldedParity(CrcsOf(parts));
  }

  // ----- how a compressed stream is written

  // What each block stands for.
  ghost function PartsOf(recs: seq<Rec>): (parts: seq<seq<Byte>>)
    ensures |parts| == |recs| && forall i :: 0 <= i < |recs| ==> parts[i] == Expand(recs[i].text).out
  {
    seq(|recs|, i requires 0 <= i < |recs| => Expand(recs[i].text).out)
  }

  lemma {:induction false} PartsAre(level: int, recs: seq<Rec>)
    requires GoodRecs(level, recs)
    ensures Joined(PartsOf(recs)) == Texts(recs) && CrcsOf(PartsOf(recs)) == Crcs(recs)
    ensures Texts(recs) != [] ==> PartsOf(recs) != []
    decreases |recs|
  {
    hide GoodRec, CrcOf, Expand;
    if recs != [] {
      PartsAre(level, recs[1..]);
      assert PartsOf(recs)[1..] == PartsOf(recs[1..]);
    }
    forall i | 0 <= i < |recs|
      ensures CrcsOf(PartsOf(recs))[i] == Crcs(recs)[i]
    {
      RecParts(level, recs[i]);
    }
  }

  /** The fixed parts of a stream and where they are: header and level, end magic, the parity of the
      blocks' CRCs; with a first block, its magic and CRC. */
  ghost predicate Framed(b: seq<bool>, level: int, crcs: seq<nat>)
    requires 1 <= level <= 9
  {
    && 112 <= |b| && b[..32] == BytesToBits([0x42, 0x5a, 0x68, 0x30 + level])
    && b[|b| - 80..|b| - 32] == BytesToBits([0x17, 0x72, 0x45, 0x38, 0x50, 0x90])
    && b[|b| - 32..] == ParityBits(crcs)
    && (crcs != [] ==>
          && b[32..80] == BytesToBits([0x31, 0x41, 0x59, 0x26, 0x53, 0x59])
          && b[80..112] == ToBits(crcs[0], 32))
  }

  lemma StreamWritten(level: int, recs: seq<Rec>)
    requires GoodRecs(level, recs) && 1 <= level <= 9
    ensures Framed(StreamBits(level, recs), level, Crcs(recs))
  {
    hide *;
    GoodCrcs(level, recs);
    Layout.HeaderLiteral(level);
    Layout.MagicLiterals();
    Bound32(0);
    CombinedFolded(recs, 0);
    Bound32(Combined(recs, 0));
    Layout.U32Is(Combined(recs, 0));
    FoldedParity(Crcs(recs));
    StreamIs(level, recs);
    var h, m, t := StreamHeaderBits(level), BlocksBits(level, recs), EndMagicBits(0);
    if recs != [] { FirstBlock(level, recs); }
    FramedNow(h, m, t, ParityBits(Crcs(recs)), level, Crcs(recs));
  }

  lemma FramedNow(h: seq<bool>, m: seq<bool>, t: seq<bool>, c: seq<bool>, level: int, crcs: seq<nat>)
    requires 1 <= level <= 9 && h == BytesToBits([0x42, 0x5a, 0x68, 0x30 + level])
    requires t == BytesToBits([0x17, 0x72, 0x45, 0x38, 0x50, 0x90]) && c == ParityBits(crcs)
    requires crcs != [] ==>
      80 <= |m| && m[..48] == BytesToBits([0x31, 0x41, 0x59, 0x26, 0x53, 0x59]) && m[48..80] == ToBits(crcs[0], 32)
    ensures Framed(h + m + (t + c), level, crcs)
  {
    hide BytesToBits, ToBits, ParityBits;
    FourParts(h, m, t, c);
    if crcs != [] { PrefixSlices(h, m, t + c); }
  }

  lemma StreamIs(level: int, recs: seq<Rec>)
    requires GoodRecs(level, recs) && forall i :: 0 <= i < |recs| ==> recs[i].x.crc < Gf2.TOP32
    ensures StreamBits(level, recs)
      == StreamHeaderBits(level) + BlocksBits(level, recs) + (EndMagicBits(0) + U32Bits(Combined(recs, 0)))
  {
    hide StreamHeaderBits, BlocksBits, EndMagicBits, U32Bits, Combined, GoodRecs;
  }

  lemma FourParts(h: seq<bool>, m: seq<bool>, t: seq<bool>, c: seq<bool>)
    requires |h| == 32 && |t| == 48 && |c| == 32
    ensures var b := h + m + (t + c);
      112 <= |b| && b[..32] == h && b[|b| - 80..|b| - 32] == t && b[|b| - 32..] == c
  {
    var b := h + m + (t + c);
    assert b[|b| - 80..|b| - 32] == (t + c)[..48];
  }

  // A block begins with its magic and its CRC.
  lemma FirstBlock(level: int, recs: seq<Rec>)
    requires GoodRecs(level, recs) && recs != []
    ensures var m := BlocksBits(level, recs);
      && 80 <= |m| && m[..48] == BytesToBits([0x31, 0x41, 0x59, 0x26, 0x53, 0x59])
      && m[48..80] == ToBits(recs[0].x.crc, 32)
  {
    hide *;
    RecsCases(level, recs);
    GoodPrintable(level, recs[0]);
    BlockBegins(recs[0].x, BlocksBits(level, recs[1..]));
  }

  lemma BlockBegins(x: BlockText, more: seq<bool>)
    requires x.crc < Gf2.TOP32 && |x.used| == 256 && (forall k :: 0 <= k < |x.sel| ==> 0 <= x.sel[k] < |x.lens|)
    requires (forall t :: 0 <= t < |x.lens| ==> ValidLens(x.lens[t])) && Codable(x.lens, x.sel, x.syms)
    ensures var b := BlockBits(x) + more;
      && 80 <= |b| && b[..48] == BytesToBits([0x31, 0x41, 0x59, 0x26, 0x53, 0x59]) && b[48..80] == ToBits(x.crc, 32)
  {
    hide *;
    BlockCases(x, more);
    Layout.MagicLiterals();
    Bound32(x.crc);
    Layout.U32Is(x.crc);
    TwoParts(BlockMagicBits(0), U32Bits(x.crc), [false] + (ToBits(x.origPtr, 24) + (BodyBits(x) + more)));
  }

  lemma TwoParts(m: seq<bool>, c: seq<bool>, rest: seq<bool>)
    requires |m| == 48 && |c| == 32
    ensures var b := m + (c + rest); 80 <= |b| && b[..48] == m && b[48..80] == c
  {
  }

  lemma PrefixSlices(h: seq<bool>, m: seq<bool>, t: seq<bool>)
    requires |h| == 32 && 80 <= |m|
    ensures var b := h + m + t; b[32..80] == m[..48] && b[80..112] == m[48..80]
  {
  }
}
