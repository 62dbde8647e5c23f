/**
 The decompression machine (BZ2_bzDecompress): parser, inverse block sort, output loop
 and CRC checks by turns, in either form, against the session a string of bits means.
 */
module Decompressor {
  import opened Bits
  import opened Parser
  import opened ByteCounts
  import opened Expansion
  import opened St = Stream
  import IB = InverseBwt
  import O = Output
  import Rd = Reader
  import Crc
  import Gf2
  import Layout

  datatype Reply = Okay | StreamEnd | DataError | DataErrorMagic | SequenceError | Unmodelled
  // Broken: an error has been reported, or a randomised block met.
  datatype Phase = Parsing | Outputting | Ended | Broken

  // ----- between parsing and output

  ghost function SourceOf(h: Header, column: seq<Byte>): O.Source {
    O.Source(column, InverseOf(column), h.origPtr, h.level)
  }

  ghost function TotalOf(h: Header, column: seq<Byte>): Expanded
    requires O.Good(SourceOf(h, column))
  {
    var f := O.Fetched(SourceOf(h, column));
    Rest(f, |column|, 1, f[0])
  }

  lemma SourceGood(h: Header, column: seq<Byte>)
    requires Ok(Output(h, column))
    ensures O.Good(SourceOf(h, column)) && h.origPtr < |column| <= 100000 * h.level <= 900000
  {
    hide IB.InvertsT, InverseOf;
    InverseInverts(column);
  }

  // The inverse of a T vector is unique.
  lemma InverseUnique(l: seq<Byte>, p: seq<int>)
    requires IB.InvertsT(l, p)
    ensures p == InverseOf(l)
  {
    var q := InverseOf(l);
    forall k | 0 <= k < |l|
      ensures p[k] == q[k]
    {
      IB.InverseStep(l, p, q[k]);
    }
  }

  // What the output loops owe is the block's expansion.
  lemma TotalExpands(h: Header, column: seq<Byte>)
    requires O.Good(SourceOf(h, column)) && h.origPtr < |column| <= 100000 * h.level <= 900000
    ensures SameUpToFault(TotalOf(h, column), Expand(Unsort(column, h.origPtr, h.level)))
  {
    hide IB.InvertsT, InverseOf, O.Fetched, Rest, Expand;
    var f := O.Fetched(SourceOf(h, column));
    RestExpands(f, |column|, 1);
    assert f[0..|column|] == f[..|column|];
  }

  // The cumulative byte counts, from the counts kept while the column was decoded; the range and
  // order checks on them cannot fail.
  method BuildCftab(unzftab: seq<int>, ghost column: seq<Byte>) returns (cftab: array<int>)
    requires Tallied(column, unzftab)
    ensures fresh(cftab) && cftab.Length == 257 && forall c :: 0 <= c <= 256 ==>
      cftab[c] == IB.CountBelow(column, c, |column|)
    ensures cftab[0] == 0 && cftab[256] == |column| && (forall c :: 0 <= c <= 256 ==> 0 <= cftab[c] <= |column|)
    ensures forall c, d :: 0 <= c <= d <= 256 ==> cftab[c] <= cftab[d]
    ensures forall c :: 0 <= c < 256 ==> 0 <= unzftab[c] <= |column|
  {
    hide IB.Occ, IB.CountBelow;
    ghost var n := |column|;
    cftab := new int[257];
    cftab[0] := 0;
    var i := 1;
    while i <= 256
      invariant 1 <= i <= 257 && cftab[0] == 0
      invariant forall c :: 1 <= c < i ==> cftab[c] == IB.Occ(column, c - 1, n)
    {
      cftab[i] := unzftab[i - 1];
      i := i + 1;
    }
    IB.CountBelowEnds(column, n);
    i := 1;
    while i <= 256
      invariant 1 <= i <= 257
      invariant forall c :: 0 <= c < i ==> cftab[c] == IB.CountBelow(column, c, n)
      invariant forall c :: i <= c <= 256 ==> cftab[c] == IB.Occ(column, c - 1, n)
    {
      IB.CountBelowStep(column, i - 1, n);
      cftab[i] := cftab[i] + cftab[i - 1];
      i := i + 1;
    }
    forall c, d | 0 <= c <= d <= 256
      ensures cftab[c] <= cftab[d]
    {
      IB.CountBelowMono(column, c, d, n);
    }
  }

  /** The FAST set-up: links over the column, first byte fetched. */
  method SetUpFast(h: Header, column: seq<Byte>, unzftab: seq<int>) returns (tt: seq<int>, unrle: O.Unrle)
    requires Ok(Output(h, column)) && Tallied(column, unzftab)
    ensures O.Good(SourceOf(h, column)) && O.FastHolds(SourceOf(h, column), tt) && fresh(unrle)
    ensures unrle.Valid(SourceOf(h, column), TotalOf(h, column), true) && unrle.output == []
  {
    hide *;
    SourceGood(h, column);
    var n := |column|;
    var cftab := BuildCftab(unzftab, column);
    var cells := new int[n];
    var i := 0;
    while i < n
      invariant 0 <= i <= n && forall k :: 0 <= k < i ==> cells[k] == column[k]
      invariant forall c :: 0 <= c <= 256 ==> cftab[c] == IB.CountBelow(column, c, n)
    {
      cells[i] := column[i];
      i := i + 1;
    }
    IB.BuildFast(cells, cftab, n, column);
    tt := cells[..];
    InverseUnique(column, IB.Links(tt, n));
    FastFacts(h, column, tt);
    unrle := new O.Unrle.Fast(tt, h.origPtr, SourceOf(h, column));
  }

  lemma FastFacts(h: Header, column: seq<Byte>, tt: seq<int>)
    requires O.Good(SourceOf(h, column)) && |tt| == |column| && IB.Links(tt, |column|) == InverseOf(column)
    requires forall k :: 0 <= k < |column| ==> tt[k] % 256 == column[k]
    ensures O.FastHolds(SourceOf(h, column), tt) && SourceOf(h, column).orig == h.origPtr
      && SourceOf(h, column).l == column
    ensures TotalOf(h, column) == Rest(O.Fetched(SourceOf(h, column)), |column|, 1, O.Fetched(SourceOf(h, column))[0])
  {
    hide IB.InvertsT, O.Fetched, Rest, InverseOf;
    forall k | 0 <= k < |column|
      ensures tt[k] / 256 == InverseOf(column)[k]
    {
      assert IB.Links(tt, |column|)[k] == tt[k] / 256;
    }
  }

  /** The SMALL set-up: 20-bit cells, the cycle through origPtr reversed, first byte fetched. */
  method SetUpSmall(h: Header, column: seq<Byte>, unzftab: seq<int>)
    returns (ll: IB.Packed20, cftab: array<int>, unrle: O.Unrle)
    requires Ok(Output(h, column)) && Tallied(column, unzftab)
    ensures fresh(ll) && fresh(ll.ll16) && fresh(ll.ll4) && fresh(cftab) && fresh(unrle) && ll.Valid()
    ensures O.Good(SourceOf(h, column)) && O.SmallHolds(SourceOf(h, column), ll.Cells(), cftab[..])
    ensures unrle.Valid(SourceOf(h, column), TotalOf(h, column), false) && unrle.output == []
  {
    hide IB.InvertsT, O.Fetched, Rest, InverseOf, IB.CountBelow, IB.Target, IB.Walk, O.SmallHolds, IB.Occ;
    SourceGood(h, column);
    InverseInverts(column);
    var n := |column|;
    cftab := BuildCftab(unzftab, column);
    var cftabCopy := new int[257](i requires 0 <= i < 257 reads cftab => cftab[i]);
    ll := new IB.Packed20(n);
    var i := 0;
    while i < n
      invariant 0 <= i <= n && forall k :: 0 <= k < i ==> ll.ll16[k] == column[k]
      invariant forall c :: 0 <= c <= 256 ==> cftab[c] == IB.CountBelow(column, c, n)
      invariant forall c :: 0 <= c <= 256 ==> cftabCopy[c] == IB.CountBelow(column, c, n)
    {
      ll.ll16[i] := column[i];
      i := i + 1;
    }
    IB.BuildTSmall(ll, cftabCopy, n, column);
    IB.ReverseCycle(ll, h.origPtr, n, column, InverseOf(column));
    SmallFacts(h, column, ll.Cells(), cftab[..]) by {
      forall m: nat
        ensures ll.Cells()[IB.Walk(InverseOf(column), h.origPtr, m)] ==
          InverseOf(column)[IB.Walk(InverseOf(column), h.origPtr, m)]
      {
        assert ll.Get(IB.Walk(InverseOf(column), h.origPtr, m)) ==
          InverseOf(column)[IB.Walk(InverseOf(column), h.origPtr, m)];
      }
    }
    unrle := new O.Unrle.Small(ll, cftab, h.origPtr, SourceOf(h, column));
  }

  lemma SmallFacts(h: Header, column: seq<Byte>, cells: seq<int>, cftab: seq<int>)
    requires O.Good(SourceOf(h, column)) && |column| <= |cells| && |cftab| == 257 && h.origPtr < |column|
    requires forall k :: 0 <= k < |column| ==> 0 <= InverseOf(column)[k] < |column|
    requires forall m: nat ::
      cells[IB.Walk(InverseOf(column), h.origPtr, m)] == InverseOf(column)[IB.Walk(InverseOf(column), h.origPtr, m)]
    requires forall c :: 0 <= c <= 256 ==> cftab[c] == IB.CountBelow(column, c, |column|)
    ensures O.SmallHolds(SourceOf(h, column), cells, cftab)
  {
    hide IB.InvertsT, InverseOf, IB.CountBelow, IB.Walk;
  }

  // ----- where the bits taken so far have led

  // After the bits x the decoder is at p with buf in hand and c the combined CRC, having put
  // out before; whatever follows, the session is theirs.
  ghost predicate Reaches(x: seq<bool>, before: seq<Byte>, p: Parser, buf: seq<bool>, c: nat) {
    && Ok(p) && c < Gf2.TOP32
    && forall z: seq<bool> {:trigger WholeRun(x, z)} :: WholeRun(x, z) == After(before, Session(p, buf + z, c))
  }

  // The whole session, z following x.
  ghost function WholeRun(x: seq<bool>, z: seq<bool>): Decoded {
    Session(Magic(0), x + z, 0)
  }

  lemma ReachesStart()
    ensures Reaches([], [], Magic(0), [], 0)
  {
    hide Session;
    forall z: seq<bool>
      ensures WholeRun([], z) == After([], Session(Magic(0), [] + z, 0))
    {
      AfterNothing(Session(Magic(0), [] + z, 0));
    }
  }

  lemma ReachesNow(x: seq<bool>, before: seq<Byte>, p: Parser, buf: seq<bool>, c: nat)
    requires Reaches(x, before, p, buf, c)
    ensures Ok(p) && c < Gf2.TOP32 && Ok(Magic(0)) && Session(Magic(0), x, 0) == After(before, Session(p, buf, c))
  {
    hide Session;
    assert WholeRun(x, []) == After(before, Session(p, buf + [], c));
    assert x + [] == x && buf + [] == buf;
  }

  // Parsing on over the bits w.
  lemma ReachesRun(x: seq<bool>, before: seq<Byte>, p: Parser, buf: seq<bool>, c: nat, w: seq<bool>, q: Parser,
                   buf': seq<bool>)
    requires Reaches(x, before, p, buf, c) && RunBits(p, buf + w) == (q, buf')
    ensures Reaches(x + w, before, q, buf', c)
  {
    hide Session, RunBits, Ok, After;
    RunBitsEnds(p, buf + w);
    forall z: seq<bool>
      ensures WholeRun(x + w, z) == After(before, Session(q, buf' + z, c))
    {
      assert x + w + z == x + (w + z) && buf + w + z == buf + (w + z);
      assert WholeRun(x, w + z) == After(before, Session(p, buf + (w + z), c));
      RunBitsSplit(p, buf + w, z);
      SameRun(p, buf + w + z, q, buf' + z, c);
    }
  }

  // A block put out and found right.
  lemma ReachesBlock(x: seq<bool>, before: seq<Byte>, h: Header, column: seq<Byte>, buf: seq<bool>, c: nat)
    requires Reaches(x, before, Output(h, column), buf, c) && !h.randomised
    requires h.origPtr < |column| <= 100000 * h.level <= 900000 && h.crc < Gf2.TOP32 && BlockFine(h, column)
    ensures Reaches(x, before + Expand(Unsort(column, h.origPtr, h.level)).out, BlockMagic(h.level, 0), buf,
                    Combine(c, h.crc))
  {
    hide Session, RunBits, Ok, After, Combine, BlockFine, Unsort, Expand;
    var out := Expand(Unsort(column, h.origPtr, h.level)).out;
    OutputFacts(h, column);
    forall z: seq<bool>
      ensures WholeRun(x, z) == After(before + out, Session(BlockMagic(h.level, 0), buf + z, Combine(c, h.crc)))
    {
      assert WholeRun(x, z) == After(before, Session(Output(h, column), buf + z, c));
      TerminalShapes(Output(h, column));
      StaysTerminal(Output(h, column), buf + z);
      SessionUnfold(Output(h, column), buf + z, c);
      AfterTwice(before, out, Session(BlockMagic(h.level, 0), buf + z, Combine(c, h.crc)));
    }
  }

  // What the session comes to when the parser has stopped.
  lemma ReachesEnd(x: seq<bool>, before: seq<Byte>, q: Parser, buf: seq<bool>, c: nat)
    requires Reaches(x, before, q, buf, c) && Ok(Magic(0)) && c < Gf2.TOP32
    ensures q.Failed? ==> Session(Magic(0), x, 0) == Decoded(before, Verdict.DataError(q.error == BadMagic))
    ensures q.Done? ==>
      Session(Magic(0), x, 0) == Decoded(before,
                                         if q.crc == c then Verdict.StreamEnd(buf) else Verdict.DataError(false))
    ensures q.Output? && q.h.randomised ==> Session(Magic(0), x, 0) == Decoded(before, Randomised)
    ensures q.Output? && !q.h.randomised ==>
      q.h.origPtr < |q.column| <= 100000 * q.h.level <= 900000 && q.h.crc < Gf2.TOP32
    ensures q.Output? && !q.h.randomised && !BlockFine(q.h, q.column) ==>
      Session(Magic(0), x, 0) == Decoded(before, Verdict.DataError(false))
  {
    hide Session, RunBits, Ok, Combine, BlockFine, Unsort, Expand, Reaches;
    ReachesNow(x, before, q, buf, c);
    TerminalShapes(q);
    if Terminal(q) {
      StaysTerminal(q, buf);
      SessionUnfold(q, buf, c);
      assert before + [] == before;
    }
  }

  // Out of input in the middle.
  lemma ReachesPause(x: seq<bool>, before: seq<Byte>, p: Parser, buf: seq<bool>, c: nat)
    requires Reaches(x, before, p, buf, c) && !Terminal(p) && RunBits(p, buf) == (p, buf)
    ensures Ok(Magic(0)) && Session(Magic(0), x, 0) == Decoded(before, MoreInput(p, buf, c))
  {
    hide Session, RunBits, Ok, Reaches;
    ReachesNow(x, before, p, buf, c);
    SessionUnfold(p, buf, c);
    assert before + [] == before;
  }

  /** A run that stopped before the bits y did not need them. */
  lemma RunBitsTaken(p: Parser, x: seq<bool>, y: seq<bool>, q: Parser, r: seq<bool>)
    requires Ok(p) && RunBits(p, x + y) == (q, r + y) && Terminal(q)
    ensures RunBits(p, x) == (q, r)
  {
    hide RunBits, Ok, Next, Need, Val;
    RunBitsSplit(p, x, y);
    RunBitsEnds(p, x);
    var (s, t) := RunBits(p, x);
    if Terminal(s) {
      StaysTerminal(s, t + y);
      assert |t + y| == |r + y|;
      assert t == (t + y)[..|t|] && r == (r + y)[..|r|];
    } else if |t + y| < Need(s) {
      Suspended(s, t + y);
    } else {
      Rd.Advance(s, t + y, Val((t + y)[..Need(s)]));
      RunBitsEnds(Next(s, Val((t + y)[..Need(s)])), (t + y)[Need(s)..]);
    }
  }

  // The same, over the bytes between from and at.
  lemma TakenRun(p: Parser, buf: seq<bool>, input: seq<Byte>, from: nat, at: nat, q: Parser, buf': seq<bool>)
    requires from <= at <= |input| && Ok(p) && (Terminal(q) || at == |input|)
    requires RunBits(p, buf + BytesToBits(input[from..])) == (q, buf' + BytesToBits(input[at..]))
    ensures RunBits(p, buf + BytesToBits(input[from..at])) == (q, buf')
  {
    hide RunBits, Ok, BytesToBits, Terminal;
    var x, y := BytesToBits(input[from..at]), BytesToBits(input[at..]);
    assert input[from..] == input[from..at] + input[at..];
    BytesToBitsConcat(input[from..at], input[at..]);
    assert buf + (x + y) == buf + x + y;
    if Terminal(q) {
      RunBitsTaken(p, buf + x, y, q, buf');
    } else {
      assert y == [];
      assert buf + x + [] == buf + x && buf' + [] == buf';
    }
  }

  lemma ReachesTaken(taken: seq<Byte>, before: seq<Byte>, p: Parser, buf: seq<bool>, c: nat, input: seq<Byte>,
                     from: nat, at: nat, q: Parser, buf': seq<bool>)
    requires Reaches(BytesToBits(taken), before, p, buf, c) && from <= at <= |input| && Ok(p)
      && (Terminal(q) || at == |input|)
    requires RunBits(p, buf + BytesToBits(input[from..])) == (q, buf' + BytesToBits(input[at..]))
    ensures Reaches(BytesToBits(taken + input[from..at]), before, q, buf', c)
  {
    hide *;
    TakenRun(p, buf, input, from, at, q, buf');
    ReachesRun(BytesToBits(taken), before, p, buf, c, BytesToBits(input[from..at]), q, buf');
    BytesToBitsConcat(taken, input[from..at]);
  }

  // ----- the machine

  /** DState and the caller's stream. */
  class Machine {
    const small: bool
    const dec: Rd.Decoder
    var tt: seq<int>
    var ll: IB.Packed20
    var cftab: array<int>
    var unrle: O.Unrle?
    var calculatedCombinedCRC: nat
    var phase: Phase
    var output: seq<Byte>          // everything handed to the caller
    ghost var taken: seq<Byte>     // everything taken from the caller, and not handed back
    ghost var before: seq<Byte>    // output of the blocks that are done with
    ghost var pad: seq<bool>       // bits of the last byte after the stream

    // The block at hand is set up in the form in use, and part of it has been put out.
    ghost predicate BlockReady()
      requires Ok(dec.parser)
      reads this, dec`parser, unrle, cftab, ll.ll16, ll.ll4
    {
      && dec.parser.Output? && !dec.parser.h.randomised && unrle != null
      && var h, column := dec.parser.h, dec.parser.column;
      && O.Good(SourceOf(h, column)) && unrle.Valid(SourceOf(h, column), TotalOf(h, column), !small)
      && output == before + unrle.output
      && if small then ll.Valid() && O.SmallHolds(SourceOf(h, column), ll.Cells(), cftab[..])
         else O.FastHolds(SourceOf(h, column), tt)
    }

    // What the bytes taken mean as a session.
    ghost function SoFar(): Decoded
      reads this`taken
    {
      Session(Magic(0), BytesToBits(taken), 0)
    }

    // Waiting for more input, with all output given: the session is at the parser's state.
    ghost predicate Paused()
      reads this`phase, this`taken, this`output, this`calculatedCombinedCRC, dec`parser, dec`bsBuff, dec`bsLive
    {
      phase == Parsing && SoFar() == Decoded(output, MoreInput(dec.parser, dec.Buffered(), calculatedCombinedCRC))
    }

    ghost predicate Valid()
      reads this, dec, unrle, cftab, ll.ll16, ll.ll4
    {
      match phase
      case Parsing =>
        && dec.Valid() && dec.totalIn == |taken| && !Terminal(dec.parser) && Rd.Resumable(dec.parser, dec.bsLive)
        && Reaches(BytesToBits(taken), before, dec.parser, dec.Buffered(), calculatedCombinedCRC) && output == before
      case Outputting =>
        && dec.Valid() && dec.totalIn == |taken| && BlockReady()
        && Reaches(BytesToBits(taken), before, dec.parser, dec.Buffered(), calculatedCombinedCRC)
      case Ended => dec.totalIn == |taken| && SoFar() == Decoded(output, Verdict.StreamEnd(pad)) && |pad| < 8
      case Broken => SoFar().verdict.DataError? || SoFar().verdict.Randomised?
    }

    /** BZ2_bzDecompressInit */
    constructor (smallDecompress: bool)
      ensures Valid() && phase == Parsing && small == smallDecompress && taken == [] && output == []
    {
      hide Session, Reaches;
      small := smallDecompress;
      dec := new Rd.Decoder();
      ll := new IB.Packed20(0);
      cftab := new int[257];
      tt, unrle, calculatedCombinedCRC, phase, output := [], null, 0, Parsing, [];
      taken, before, pad := [], [], [];
      ReachesStart();
    }

    lemma ParsingFacts()
      requires Valid() && phase == Parsing
      ensures dec.Valid() && dec.nextIn <= |dec.input| && Ok(dec.parser) && !Terminal(dec.parser)
        && Rd.Resumable(dec.parser, dec.bsLive)
      ensures dec.totalIn == |taken| && output == before && calculatedCombinedCRC < Gf2.TOP32
      ensures Reaches(BytesToBits(taken), before, dec.parser, dec.Buffered(), calculatedCombinedCRC)
      ensures dec.Pending() == dec.Buffered() + BytesToBits(dec.input[dec.nextIn..])
      ensures |RunBits(dec.parser, dec.Pending()).1| <= |dec.Pending()|
      ensures Terminal(RunBits(dec.parser, dec.Pending()).0) ==>
        |RunBits(dec.parser, dec.Pending()).1| < |dec.Pending()|
    {
      hide RunBits, Session, Ok, BytesToBits, ToBits, Rd.TablesReady, TalliesReady, Terminal;
      RunBitsProgress(dec.parser, dec.Pending());
    }

    // BZ2_decompress; buf is what the parser has been given and not used.
    method ParseOn() returns (ghost buf: seq<bool>)
      requires Valid() && phase == Parsing
      modifies this`taken, dec
      ensures dec.input == old(dec.input) && old(dec.nextIn) <= dec.nextIn <= |dec.input|
      ensures taken == old(taken) + dec.input[old(dec.nextIn)..dec.nextIn] && dec.totalIn == |taken|
      ensures Reaches(BytesToBits(taken), before, dec.parser, buf, calculatedCombinedCRC) && Ok(dec.parser)
      ensures dec.parser.Done? ==> |buf| < 8
      ensures !dec.parser.Done? ==>
        dec.Valid() && buf == dec.Buffered() && (Terminal(dec.parser) ==> |dec.Pending()| < |old(dec.Pending())|)
      ensures !Terminal(dec.parser) ==>
        && dec.nextIn == |dec.input| && Rd.Resumable(dec.parser, dec.bsLive)
          && RunBits(dec.parser, buf) == (dec.parser, buf)
    {
      hide *;
      ParsingFacts();
      ghost var p0, buf0, from, bits0 := dec.parser, dec.Buffered(), dec.nextIn, dec.Pending();
      RunBitsEnds(p0, bits0);
      ghost var rest := RunBits(p0, bits0).1;
      dec.FedIs(dec.input[from..]);
      dec.Decompress();
      if dec.parser.Done? {
        buf := rest[..|rest| % 8];
        Rd.WholeBytesEnd(rest);
        DoneTerminal(dec.parser);
      } else {
        buf := dec.Buffered();
        PendingIs(dec);
        if !Terminal(dec.parser) {
          assert BytesToBits(dec.input[dec.nextIn..]) == [];
          assert buf + [] == buf;
          Suspended(dec.parser, buf);
        }
      }
      ReachesTaken(taken, before, p0, buf0, calculatedCombinedCRC, dec.input, from, dec.nextIn, dec.parser, buf);
      taken := taken + dec.input[from..dec.nextIn];
    }

    // BZ2_decompress and what follows it; more says that the call goes on with a block to put out.
    method Parse() returns (reply: Reply, more: bool)
      requires Valid() && phase == Parsing
      modifies this, dec
      ensures Valid() && output == old(output) && dec.input == old(dec.input)
        && old(dec.nextIn) <= dec.nextIn <= |dec.input|
      ensures taken == old(taken) + dec.input[old(dec.nextIn)..dec.nextIn] && (unrle == old(unrle) || fresh(unrle))
      ensures more ==> phase == Outputting && fresh(unrle) && |dec.Pending()| < |old(dec.Pending())|
      ensures !more ==> match reply
        case Okay => phase == Parsing && dec.nextIn == |dec.input| && Paused()
        case StreamEnd => phase == Ended
        case DataError => phase == Broken && SoFar() == Decoded(output, Verdict.DataError(false))
          && dec.parser != Failed(BadMagic)
        case DataErrorMagic => phase == Broken && SoFar() == Decoded(output, Verdict.DataError(true))
          && dec.parser == Failed(BadMagic)
        case Unmodelled => phase == Broken && SoFar() == Decoded(output, Randomised)
        case SequenceError => false
    {
      hide *;
      ParsingFacts();
      ghost var buf := ParseOn();
      ReachesNow(BytesToBits(taken), before, dec.parser, buf, calculatedCombinedCRC);
      ReachesEnd(BytesToBits(taken), before, dec.parser, buf, calculatedCombinedCRC);
      SoFarIs();
      TerminalShapes(dec.parser);
      match dec.parser
      case Done(crc) =>
        if crc == calculatedCombinedCRC {
          phase, pad := Ended, buf;
          EndedValid();
          return Reply.StreamEnd, false;
        }
        phase := Broken;
        BrokenValid();
        return Reply.DataError, false;
      case Failed(error) =>
        phase := Broken;
        BrokenValid();
        return if error == BadMagic then DataErrorMagic else Reply.DataError, false;
      case Output(h, column) =>
        if h.randomised {
          phase := Broken;
          BrokenValid();
          return Unmodelled, false;
        }
        SetUp(h, column);
        return Okay, true;
      case _ =>
        ReachesPause(BytesToBits(taken), before, dec.parser, buf, calculatedCombinedCRC);
        ParsingValid();
        PausedIs();
        return Okay, false;
    }

    // Both set-ups, by smallDecompress.
    method SetUp(h: Header, column: seq<Byte>)
      requires dec.Valid() && dec.parser == Output(h, column) && !h.randomised && dec.totalIn == |taken|
        && output == before
      requires Reaches(BytesToBits(taken), before, dec.parser, dec.Buffered(), calculatedCombinedCRC)
      modifies this`tt, this`ll, this`cftab, this`unrle, this`phase
      ensures Valid() && phase == Outputting && fresh(unrle)
    {
      hide Session, Reaches, O.Good, O.SmallHolds, O.FastHolds, O.Unrle.Valid, SourceOf, TotalOf, IB.Packed20.Cells,
        Ok, BytesToBits, ToBits;
      DecOk(dec);
      if small {
        ll, cftab, unrle := SetUpSmall(h, column, dec.unzftab);
      } else {
        tt, unrle := SetUpFast(h, column, dec.unzftab);
      }
      phase := Outputting;
      assert before + [] == before;
    }

    // The output loop of the form in use; written is what it puts into the caller's memory.  On corruption
    // that is all the block expands to, which the FAST form does not report as progress.
    method Emit(availOut: nat, accelerated: bool) returns (corrupt: bool, avail: nat, written: seq<Byte>)
      requires Valid() && phase == Outputting
      modifies this`output, this`phase, unrle
      ensures Valid() && dec.parser.Output? && O.Good(SourceOf(dec.parser.h, dec.parser.column))
      ensures |written| <= availOut && |output| - |old(output)| == availOut - avail
      ensures output == if corrupt && !small then old(output) else old(output) + written
      ensures old(output) + written <= before + TotalOf(dec.parser.h, dec.parser.column).out
      ensures corrupt ==> phase == Broken && SoFar() == Decoded(before, Verdict.DataError(false)) && before <= output
      ensures corrupt ==> old(output) + written == before + TotalOf(dec.parser.h, dec.parser.column).out
      ensures !corrupt ==> phase == Outputting
      ensures !corrupt ==> avail == 0 || (unrle != null && unrle.Finished(|dec.parser.column|))
    {
      hide *;
      OutputtingFacts();
      ghost var x, total := SourceOf(dec.parser.h, dec.parser.column), TotalOf(dec.parser.h, dec.parser.column);
      ghost var out0 := unrle.output;
      var put := |unrle.output|;
      var n := |dec.parser.column|;
      if small {
        corrupt, avail := unrle.UnrleSmall(ll, cftab, availOut, n, x, total);
        written := unrle.output[put..];
        PrefixCut(out0, unrle.output);
      } else {
        corrupt, avail, written := unrle.UnrleFast(tt, availOut, n, accelerated, x, total);
      }
      PrefixBehind(before, out0, written, total.out);
      if !corrupt || small { output := output + written; }
      if corrupt {
        NotFine(dec.parser.h, dec.parser.column);
        ReachesEnd(BytesToBits(taken), before, dec.parser, dec.Buffered(), calculatedCombinedCRC);
        SoFarIs();
        phase := Broken;
        BrokenValid();
      } else {
        OutputtingValid();
      }
    }

    // The block is all out: its CRC is checked and joins the combined one.
    method EndBlock() returns (ok: bool)
      requires Valid() && phase == Outputting && dec.parser.Output? && unrle != null
        && unrle.Finished(|dec.parser.column|)
      modifies this`phase, this`before, this`calculatedCombinedCRC, dec`parser
      ensures Valid() && (ok <==> phase == Parsing)
      ensures ok ==> dec.Pending() == old(dec.Pending())
      ensures !ok ==>
        phase == Broken && SoFar() == Decoded(before, Verdict.DataError(false)) && before <= output
          && dec.parser.Output?
    {
      hide *;
      OutputtingFacts();
      ghost var h, column := dec.parser.h, dec.parser.column;
      FinishedFacts(unrle, h, column, !small);
      ReachesEnd(BytesToBits(taken), before, dec.parser, dec.Buffered(), calculatedCombinedCRC);
      var crc := Finalised(unrle.calculatedBlockCRC);
      ok := crc == dec.parser.h.crc;
      if ok {
        ReachesBlock(BytesToBits(taken), before, h, column, dec.Buffered(), calculatedCombinedCRC);
        CombineBound(calculatedCombinedCRC, crc);
        calculatedCombinedCRC := Combine(calculatedCombinedCRC, crc);
        before := before + unrle.output;
        phase := Parsing;
        dec.ResumeAfterOutput();
        TerminalShapes(dec.parser);
        ParsingValid();
      } else {
        SoFarIs();
        phase := Broken;
        BrokenValid();
      }
    }

    // The part of a call that puts out the block at hand; done says that all of it is out and right.
    method PutOut(availOut: nat, accelerated: bool) returns (reply: Reply, done: bool, avail: nat)
      requires Valid() && phase == Outputting
      modifies this`output, this`phase, this`before, this`calculatedCombinedCRC, dec`parser, unrle
      ensures Valid() && old(output) <= output && |output| - |old(output)| == availOut - avail
      ensures done ==> phase == Parsing && dec.Pending() == old(dec.Pending())
      ensures !done && phase == Outputting ==> reply == Okay && avail == 0
      ensures !done && phase != Outputting ==> reply == Reply.DataError && phase == Broken && dec.parser.Output?
      ensures phase == Broken ==> SoFar() == Decoded(before, Verdict.DataError(false)) && before <= output
    {
      hide *;
      var corrupt, written;
      corrupt, avail, written := Emit(availOut, accelerated);
      reply, done := Reply.DataError, false;
      if corrupt { return; }
      BlockAtHand();
      if !unrle.Finished(|dec.parser.column|) { return Okay, false, avail; }
      done := EndBlock();
    }

    /** BZ2_bzDecompress: one call with any buffers.  Okay with room left in the output means the
        input is used up; no verdict is given that the bytes taken do not bear out. */
    method Decompress(input: seq<Byte>, availOut: nat, accelerated: bool)
      returns (reply: Reply, nextIn: nat, avail: nat)
      requires Valid() && phase != Broken
      modifies this, dec, unrle
      ensures Valid() && (unrle == old(unrle) || fresh(unrle))
      ensures nextIn <= |input| && taken == old(taken) + input[..nextIn]
      ensures old(output) <= output && |output| - |old(output)| == availOut - avail
      ensures reply == Okay ==>
        (phase == Parsing || phase == Outputting) && (avail == 0 || (nextIn == |input| && Paused()))
      ensures reply == Reply.StreamEnd ==> phase == Ended
      ensures reply == Reply.DataError ==>
        phase == Broken && SoFar().verdict == Verdict.DataError(false) && SoFar().out <= output
      ensures reply == DataErrorMagic ==> phase == Broken && SoFar() == Decoded(output, Verdict.DataError(true))
      ensures reply == DataErrorMagic <==> Layout.BadHeader(taken)
      ensures reply == Unmodelled ==> phase == Broken && SoFar() == Decoded(output, Randomised)
      ensures reply == SequenceError <==> old(phase) == Ended
    {
      hide *;
      nextIn, avail := 0, availOut;
      assert input[..0] == [] && taken + [] == taken;
      HeaderFacts();
      if phase == Ended { return SequenceError, nextIn, avail; }
      Attach(input);
      while true
        invariant Valid() && (phase == Parsing || phase == Outputting) && dec.input == input
          && nextIn == dec.nextIn <= |input|
        invariant taken == old(taken) + input[..nextIn] && (unrle == old(unrle) || fresh(unrle))
        invariant old(output) <= output && |output| - |old(output)| == availOut - avail
        decreases |dec.Pending()|, phase == Outputting
      {
        if phase == Outputting {
          var done;
          reply, done, avail := PutOut(avail, accelerated);
          HeaderFacts();
          if !done { return reply, nextIn, avail; }
        }
        var more;
        reply, more := Parse();
        PrefixOn(input, nextIn, dec.nextIn);
        Joins(old(taken), input[..nextIn], input[nextIn..dec.nextIn]);
        nextIn := dec.nextIn;
        HeaderFacts();
        if !more { return reply, nextIn, avail; }
      }
    }

    /** If the bytes taken, with z after them, make a whole stream, then no error has been reported,
        what has been put out so far begins its text, and an end reported is its end. */
    lemma OnCourse(z: seq<bool>)
      requires Valid() && Ok(Magic(0)) && Session(Magic(0), BytesToBits(taken) + z, 0).verdict.StreamEnd?
      ensures phase != Broken && output <= Session(Magic(0), BytesToBits(taken) + z, 0).out
      ensures phase == Ended ==>
        Session(Magic(0), BytesToBits(taken) + z, 0) == Decoded(output, Verdict.StreamEnd(pad + z)) && |pad| < 8
      ensures SoFar().verdict.MoreInput? || SoFar().verdict.StreamEnd?
    {
      hide *;
      SoFarIs();
      Bound32(0);
      SessionGrows(Magic(0), BytesToBits(taken), z, 0);
      if phase == Parsing {
        ParsingFacts();
        ReachesNow(BytesToBits(taken), before, dec.parser, dec.Buffered(), calculatedCombinedCRC);
        AfterIs(before, Session(dec.parser, dec.Buffered(), calculatedCombinedCRC));
      } else if phase == Outputting {
        OutputtingFacts();
        CourseBlock(z);
      } else {
        StoppedFacts();
      }
    }

    lemma StoppedFacts()
      requires Valid() && phase != Parsing && phase != Outputting
      ensures phase == Ended ==> SoFar() == Decoded(output, Verdict.StreamEnd(pad)) && |pad| < 8
      ensures phase == Broken ==> SoFar().verdict.DataError? || SoFar().verdict.Randomised?
    {
      hide Session, BytesToBits;
    }

    // While a block of a whole stream is being put out.
    lemma CourseBlock(z: seq<bool>)
      requires Ok(Magic(0)) && Session(Magic(0), BytesToBits(taken) + z, 0).verdict.StreamEnd?
      requires dec.parser.Output? && !dec.parser.h.randomised && unrle != null && output == before + unrle.output
      requires Reaches(BytesToBits(taken), before, dec.parser, dec.Buffered(), calculatedCombinedCRC)
      requires var h, column := dec.parser.h, dec.parser.column;
        && O.Good(SourceOf(h, column)) && unrle.Valid(SourceOf(h, column), TotalOf(h, column), !small)
        && h.origPtr < |column| <= 100000 * h.level <= 900000
      ensures output <= Session(Magic(0), BytesToBits(taken) + z, 0).out
    {
      hide O.Good, TotalOf, Expand, Unsort, InverseOf, Crc.Update, IB.Walk, O.Owing, Session, BytesToBits, Combine,
        RunBits, Ok;
      var h, column := dec.parser.h, dec.parser.column;
      var x := BytesToBits(taken);
      assert WholeRun(x, z) == After(before, Session(dec.parser, dec.Buffered() + z, calculatedCombinedCRC));
      TerminalShapes(dec.parser);
      StaysTerminal(dec.parser, dec.Buffered() + z);
      SessionUnfold(dec.parser, dec.Buffered() + z, calculatedCombinedCRC);
      O.OwingPrefix(SourceOf(h, column), TotalOf(h, column), unrle.output, unrle.stateOutCh, unrle.stateOutLen,
                    unrle.nblockUsed, unrle.k0);
      TotalExpands(h, column);
    }

    method Attach(input: seq<Byte>)
      requires Valid() && (phase == Parsing || phase == Outputting)
      modifies dec
      ensures Valid() && dec.input == input && dec.nextIn == 0
    {
      hide Session, Reaches, O.Good, O.SmallHolds, O.FastHolds, O.Unrle.Valid, TotalOf, SourceOf, IB.Packed20.Cells,
        BytesToBits, ToBits, Ok;
      dec.Attach(input);
    }

    lemma BlockAtHand()
      requires Valid() && phase == Outputting
      ensures dec.parser.Output? && unrle != null
    {
      hide Session, Reaches, O.Good, O.SmallHolds, O.FastHolds, O.Unrle.Valid, TotalOf, SourceOf, IB.Packed20.Cells,
        BytesToBits, ToBits, Ok;
    }

    lemma OutputtingFacts()
      requires Valid() && phase == Outputting
      ensures dec.Valid() && dec.nextIn <= |dec.input| && Ok(dec.parser) && dec.totalIn == |taken|
      ensures calculatedCombinedCRC < Gf2.TOP32 && Ok(Magic(0))
      ensures Reaches(BytesToBits(taken), before, dec.parser, dec.Buffered(), calculatedCombinedCRC)
      ensures dec.parser.Output? && !dec.parser.h.randomised && unrle != null && output == before + unrle.output
      ensures var h, column := dec.parser.h, dec.parser.column;
        && O.Good(SourceOf(h, column)) && unrle.Valid(SourceOf(h, column), TotalOf(h, column), !small)
          && |column| == |SourceOf(h, column).l|
        && h.origPtr < |column| <= 100000 * h.level <= 900000 && h.crc < Gf2.TOP32
        && (small ==> ll.Valid() && O.SmallHolds(SourceOf(h, column), ll.Cells(), cftab[..]))
        && (!small ==> O.FastHolds(SourceOf(h, column), tt))
    {
      hide Session, Reaches, O.Good, O.SmallHolds, O.FastHolds, O.Unrle.Valid, TotalOf, IB.Packed20.Cells,
        BytesToBits, ToBits, InverseOf, Rd.TablesReady, TalliesReady;
      ReachesNow(BytesToBits(taken), before, dec.parser, dec.Buffered(), calculatedCombinedCRC);
    }

    lemma OutputtingValid()
      requires phase == Outputting && dec.Valid() && Ok(dec.parser) && dec.totalIn == |taken|
      requires Reaches(BytesToBits(taken), before, dec.parser, dec.Buffered(), calculatedCombinedCRC)
      requires dec.parser.Output? && !dec.parser.h.randomised && unrle != null && output == before + unrle.output
      requires var h, column := dec.parser.h, dec.parser.column;
        && O.Good(SourceOf(h, column)) && unrle.Valid(SourceOf(h, column), TotalOf(h, column), !small)
        && (small ==> ll.Valid() && O.SmallHolds(SourceOf(h, column), ll.Cells(), cftab[..]))
        && (!small ==> O.FastHolds(SourceOf(h, column), tt))
      ensures Valid()
    {
      hide Session, Reaches, O.Good, O.SmallHolds, O.FastHolds, O.Unrle.Valid, TotalOf, SourceOf, IB.Packed20.Cells,
        BytesToBits, ToBits, Ok;
    }

    // Whether the bytes taken begin with a stream header, as far as they go.
    lemma HeaderFacts()
      requires Valid()
      ensures SoFar().verdict == Verdict.DataError(true) <==> Layout.BadHeader(taken)
      ensures phase == Outputting || phase == Ended || Paused() ==> SoFar().verdict != Verdict.DataError(true)
    {
      hide *;
      SoFarIs();
      MagicVerdict(taken);
      PausedIs();
      if phase == Outputting {
        OutputtingFacts();
        ReachesNow(BytesToBits(taken), before, dec.parser, dec.Buffered(), calculatedCombinedCRC);
        NoMagicVerdict(dec.parser, dec.Buffered(), calculatedCombinedCRC);
        AfterIs(before, Session(dec.parser, dec.Buffered(), calculatedCombinedCRC));
      } else if phase == Ended {
        StoppedFacts();
      }
    }

    lemma SoFarIs()
      ensures SoFar() == Session(Magic(0), BytesToBits(taken), 0)
    {
    }

    lemma PausedIs()
      ensures Paused() <==>
        phase == Parsing && SoFar() == Decoded(output, MoreInput(dec.parser, dec.Buffered(), calculatedCombinedCRC))
    {
    }

    lemma EndedValid()
      requires phase == Ended && dec.totalIn == |taken| && SoFar() == Decoded(output, Verdict.StreamEnd(pad))
        && |pad| < 8
      ensures Valid()
    {
    }

    lemma EndedIs()
      requires Valid()
      ensures phase == Ended ==>
        dec.totalIn == |taken| && SoFar() == Decoded(output, Verdict.StreamEnd(pad)) && |pad| < 8
    {
      hide Session, BytesToBits;
    }

    lemma BrokenValid()
      requires phase == Broken && (SoFar().verdict.DataError? || SoFar().verdict.Randomised?)
      ensures Valid()
    {
    }

    lemma ParsingValid()
      requires phase == Parsing && dec.Valid() && dec.totalIn == |taken| && !Terminal(dec.parser)
        && Rd.Resumable(dec.parser, dec.bsLive)
      requires Reaches(BytesToBits(taken), before, dec.parser, dec.Buffered(), calculatedCombinedCRC)
        && output == before
      ensures Valid()
    {
    }
  }

  /** The bytes taken decide everything: however they were cut into calls, whatever room each call had, and
      whichever form did the work, two decompressors that have taken the same bytes and given all the output
      they could have given the same output, and stand at the same place of the stream. */
  lemma FormsAgree(c: Machine, d: Machine)
    requires c.Valid() && d.Valid() && c.taken == d.taken
    requires (c.Paused() || c.phase == Ended) && (d.Paused() || d.phase == Ended)
    ensures c.phase == d.phase && c.output == d.output
    ensures c.phase == Parsing ==>
      && c.dec.parser == d.dec.parser && c.dec.Buffered() == d.dec.Buffered()
        && c.calculatedCombinedCRC == d.calculatedCombinedCRC
    ensures c.phase == Ended ==> c.dec.totalIn == d.dec.totalIn == |c.taken|
  {
    hide *;
    c.SoFarIs();
    d.SoFarIs();
    c.PausedIs();
    d.PausedIs();
    c.EndedIs();
    d.EndedIs();
  }

  // A block that ends inside a run is not fine.
  lemma NotFine(h: Header, column: seq<Byte>)
    requires O.Good(SourceOf(h, column)) && h.origPtr < |column| <= 100000 * h.level <= 900000
    requires TotalOf(h, column).corrupt
    ensures !BlockFine(h, column)
  {
    hide O.Good, SourceOf, TotalOf, Expand, Unsort;
    TotalExpands(h, column);
  }

  // All put out: the bytes and the CRC are the expansion's.
  lemma FinishedFacts(u: O.Unrle, h: Header, column: seq<Byte>, fast: bool)
    requires O.Good(SourceOf(h, column)) && h.origPtr < |column| <= 100000 * h.level <= 900000
    requires u.Valid(SourceOf(h, column), TotalOf(h, column), fast) && u.Finished(|column|)
    ensures u.output == Expand(Unsort(column, h.origPtr, h.level)).out && u.calculatedBlockCRC < Gf2.TOP32
    ensures Finalised(u.calculatedBlockCRC) == h.crc <==> BlockFine(h, column)
  {
    hide O.Good, TotalOf, Expand, Unsort, InverseOf, Crc.Update, IB.Walk, O.Owing;
    O.OwingPrefix(SourceOf(h, column), TotalOf(h, column), u.output, u.stateOutCh, u.stateOutLen, u.nblockUsed, u.k0);
    TotalExpands(h, column);
  }

  lemma PrefixCut(a: seq<Byte>, b: seq<Byte>)
    requires a <= b
    ensures b == a + b[|a|..]
  {
  }

  lemma PrefixBehind(before: seq<Byte>, a: seq<Byte>, w: seq<Byte>, whole: seq<Byte>)
    requires a + w <= whole
    ensures before + (a + w) == before + a + w && before + a + w <= before + whole
    ensures a + w == whole ==> before + a + w == before + whole
  {
  }

  lemma DoneTerminal(p: Parser)
    requires p.Done?
    ensures Terminal(p)
  {
  }

  lemma PendingIs(d: Rd.Decoder)
    requires d.Valid()
    ensures d.nextIn <= |d.input| && Ok(d.parser) && d.Pending() == d.Buffered() + BytesToBits(d.input[d.nextIn..])
    ensures !Terminal(d.parser) && d.nextIn == |d.input| ==> d.Pending() == d.Buffered()
  {
    hide Ok, Terminal, Rd.TablesReady, TalliesReady;
    if d.nextIn == |d.input| {
      assert d.input[d.nextIn..] == [] && BytesToBits([]) == [];
      assert d.Buffered() + [] == d.Buffered();
    }
  }

  lemma DecOk(d: Rd.Decoder)
    requires d.Valid()
    ensures Ok(d.parser) && (d.parser.Output? ==> Tallied(d.parser.column, d.unzftab))
  {
    hide Ok, Rd.TablesReady, Tallied;
  }
}
