/**
 The decoder's 64-bit bit buffer, its refills from the caller's input, the fast
 symbol path over the two-level tables, and the give-back at stream end.  All of
 it refines Parser.RunBits over the bits "low bsLive bits of bsBuff, then input".
 */
module Reader {
  import opened Bits
  import opened Codes
  import FT = FastTable
  import opened Parser
  import opened ByteCounts

  // (buf << k) | w on a 64-bit word
  function Refill(buf: nat, k: nat, w: nat): nat {
    Or(Shl(buf, k) % WORD64, w)
  }

  lemma {:induction false} ShlMod(b: nat, k: nat, n: nat)
    ensures Shl(b, k) % Pow2(n + k) == Shl(b % Pow2(n), k)
    decreases k
  {
    if k != 0 {
      ShlMod(b, k - 1, n);
      HalveMod(Shl(b, k), Pow2(n + k - 1));
    }
  }

  lemma ModLess(b: nat, n: nat)
    ensures b % Pow2(n) < Pow2(n)
  {
  }

  // A refill appends k bits; the overflow falls off above the live bits.
  lemma RefillBits(buf: nat, live: nat, k: nat, w: nat)
    requires live + k <= 64 && w < Pow2(k)
    ensures Refill(buf, k, w) < WORD64
    ensures ToBits(Refill(buf, k, w), live + k) == ToBits(buf, live) + ToBits(w, k)
  {
    hide *;
    var n := 64 - k;
    var h := buf % Pow2(n);
    Pow2Is64();
    ShlMod(buf, k, n);
    OrDisjoint(h, w, k);
    RefillUnfold(buf, k, w);
    ToBitsConcat(h, w, live, k);
    ToBitsMod(buf, live, n);
    ModLess(buf, n);
    FieldBound(h, w, n, k);
  }

  lemma RefillUnfold(buf: nat, k: nat, w: nat)
    ensures Refill(buf, k, w) == Or(Shl(buf, k) % WORD64, w)
  {
  }

  lemma FieldBound(h: nat, w: nat, n: nat, k: nat)
    requires h < Pow2(n) && w < Pow2(k)
    ensures Shl(h, k) + w < Pow2(n + k)
  {
    hide *;
    ShlAdd(h, 1, k);
    ShlPow2(0, k);
    ShlPow2(n, k);
    ShlMono(h + 1, Pow2(n), k);
    PowZero();
  }

  // Taking n of the live bits.
  lemma TakeBits(buf: nat, live: nat, n: nat)
    requires n <= live
    ensures ToBits(buf, live) == ToBits(Shr(buf, live - n), n) + ToBits(buf, live - n)
    ensures Val(ToBits(buf, live)[..n]) == Shr(buf, live - n) % Pow2(n)
    ensures Shr(buf, live - n) % Pow2(n) < Pow2(n)
  {
    hide *;
    ToBitsSplit(buf, n, live - n);
    ValToBits(Shr(buf, live - n), n);
    ModLess(Shr(buf, live - n), n);
    PrefixOf(ToBits(Shr(buf, live - n), n), ToBits(buf, live - n));
  }

  lemma PrefixOf(a: seq<bool>, c: seq<bool>)
    ensures (a + c)[..|a|] == a && (a + c)[|a|..] == c
  {
  }

  // Four bytes as one big-endian word.
  function Word32(s: seq<Byte>): nat
    requires |s| == 4
  {
    (s[0] as int) * 0x100_0000 + (s[1] as int) * 0x1_0000 + (s[2] as int) * 0x100 + s[3]
  }

  function Width(k: nat): nat { 8 * k }

  lemma ByteBits(c: Byte)
    ensures BytesToBits([c]) == ToBits(c, Width(1)) && c < Pow2(Width(1))
  {
    assert [c][..0] == [];
    assert Pow2(8) == 256;
  }

  // A big-endian word of k + 1 bytes.
  lemma AppendByte(s: seq<Byte>, w: nat, c: Byte)
    requires BytesToBits(s) == ToBits(w, Width(|s|)) && w < Pow2(Width(|s|))
    ensures BytesToBits(s + [c]) == ToBits(w * 256 + c, Width(|s| + 1)) && w * 256 + c < Pow2(Width(|s| + 1))
  {
    hide *;
    BytesToBitsConcat(s, [c]);
    ByteBits(c);
    ToBitsConcat(w, c, Width(|s|), Width(1));
    FieldBound(w, c, Width(|s|), Width(1));
    ByteShift(w);
    Widths(|s|);
  }

  lemma ByteShift(w: nat)
    ensures Shl(w, Width(1)) == w * 256
  {
    ShlIsMul(w, 8);
    assert Pow2(8) == 256;
  }

  lemma Widths(n: nat)
    ensures Width(n + 1) == Width(n) + Width(1) && Width(1) == 8 && Width(4) == 32
  {
  }

  lemma Word32Bits(s: seq<Byte>)
    requires |s| == 4
    ensures BytesToBits(s) == ToBits(Word32(s), Width(4)) && Word32(s) < Pow2(Width(4))
  {
    hide *;
    ByteBits(s[0]);
    AppendByte([s[0]], s[0], s[1]);
    var w1 := (s[0] as int) * 256 + s[1];
    var w2 := w1 * 256 + s[2];
    AppendByte([s[0]] + [s[1]], w1, s[2]);
    AppendByte([s[0]] + [s[1]] + [s[2]], w2, s[3]);
    Word32Unfold(s);
  }

  lemma Word32Unfold(s: seq<Byte>)
    requires |s| == 4
    ensures Word32(s) == (((s[0] as int) * 256 + s[1]) * 256 + s[2]) * 256 + s[3]
    ensures s == [s[0]] + [s[1]] + [s[2]] + [s[3]]
  {
  }

  // ----- the decoder's input side

  // The fast tables match the current block's code lengths.
  ghost predicate TablesFor(lens: seq<seq<int>>, fast: seq<seq<int>>, overflow: seq<seq<int>>) {
    && |fast| == |lens| && |overflow| == |lens|
    && forall t :: 0 <= t < |lens| ==> FT.Sound(lens[t], fast[t], overflow[t])
  }

  ghost predicate TablesReady(p: Parser, fast: seq<seq<int>>, overflow: seq<seq<int>>) {
    (p.SymbolStart? || p.SymbolBit?) ==> TablesFor(p.b.lens, fast, overflow)
  }

  // What is left of some bits once those before the next whole byte are dropped.
  function WholeBytes(bits: seq<bool>): seq<bool> {
    bits[|bits| % 8..]
  }

  lemma WholeBytesEnd(bits: seq<bool>)
    ensures |bits| % 8 <= |bits| && bits == bits[..|bits| % 8] + WholeBytes(bits)
  {
  }

  // How many bytes are loaded to have n bits: four at a time while there are four and room for them.
  function Loaded(live: nat, avail: nat, n: nat): nat
    decreases avail
  {
    if live >= n || avail == 0 then 0
    else if avail >= 4 && live <= 32 then 4 + Loaded(live + 32, avail - 4, n)
    else 1 + Loaded(live + 8, avail - 1, n)
  }

  lemma LoadedStep(live: nat, avail: nat, n: nat)
    ensures live >= n || avail == 0 ==> Loaded(live, avail, n) == 0
    ensures live < n && avail >= 4 && live <= 32 ==> Loaded(live, avail, n) == 4 + Loaded(live + 32, avail - 4, n)
    ensures live < n && avail > 0 && !(avail >= 4 && live <= 32) ==>
      Loaded(live, avail, n) == 1 + Loaded(live + 8, avail - 1, n)
  {
  }

  class Decoder {
    var bsBuff: nat
    var bsLive: nat
    var input: seq<Byte>       // the caller's buffer for this call
    var nextIn: nat            // avail_in is |input| - nextIn
    var totalIn: nat
    var parser: Parser
    var decodeFast: seq<seq<int>>
    var decodeOverflow: seq<seq<int>>
    var unzftab: seq<int>      // 256 byte counts of the column so far
    ghost var parsed: nat      // bits consumed by the parser since stream start

    ghost predicate Valid()
      reads this
    {
      && bsBuff < WORD64 && bsLive <= 64 && nextIn <= |input| && Ok(parser)
      && 8 * totalIn == parsed + bsLive
      && TablesReady(parser, decodeFast, decodeOverflow) && TalliesReady(parser, unzftab)
    }

    // The bits the parser has yet to see.
    ghost function Pending(): seq<bool>
      requires nextIn <= |input|
      reads this`bsBuff, this`bsLive, this`input, this`nextIn
    {
      ToBits(bsBuff, bsLive) + BytesToBits(input[nextIn..])
    }

    // Those already loaded.
    ghost function Buffered(): seq<bool>
      reads this`bsBuff, this`bsLive
    {
      ToBits(bsBuff, bsLive)
    }

    // Where the loaded bits and then the bytes s lead, and the bits left over.
    ghost function Fed(s: seq<Byte>): (Parser, seq<bool>)
      requires Valid()
      reads this
    {
      RunBits(parser, Buffered() + BytesToBits(s))
    }

    lemma FedIs(s: seq<Byte>)
      requires Valid()
      ensures Ok(parser) && nextIn <= |input| && Fed(s) == RunBits(parser, Buffered() + BytesToBits(s))
      ensures Pending() == Buffered() + BytesToBits(input[nextIn..])
    {
      hide Ok, TablesReady, TalliesReady, RunBits, ToBits, BytesToBits;
    }

    // The caller's buffer for a new call.
    method Attach(buffer: seq<Byte>)
      requires Valid()
      modifies this`input, this`nextIn
      ensures Valid() && input == buffer && nextIn == 0
    {
      input, nextIn := buffer, 0;
    }

    constructor ()
      ensures Valid() && parser == Magic(0) && bsLive == 0 && parsed == 0 && input == []
    {
      bsBuff, bsLive, input, nextIn, totalIn, parsed := 0, 0, [], 0, 0, 0;
      parser, decodeFast, decodeOverflow, unzftab := Magic(0), [], [], [];
    }

    // The common part of both refills.
    method RefillFrom(k: nat, w: nat)
      requires Valid() && 1 <= k <= 4 && nextIn + k <= |input| && bsLive + 8 * k <= 64
      requires w < Pow2(Width(k)) && BytesToBits(input[nextIn..nextIn + k]) == ToBits(w, Width(k))
      modifies this`bsBuff, this`bsLive, this`nextIn, this`totalIn
      ensures Valid() && Pending() == old(Pending())
      ensures nextIn == old(nextIn) + k && bsLive == old(bsLive) + 8 * k && totalIn == old(totalIn) + k
    {
      hide ToBits, BytesToBits, Refill, Ok, TablesReady, TalliesReady, Pow2;
      PendingRefill(bsBuff, bsLive, input, nextIn, k, w);
      bsBuff := Refill(bsBuff, Width(k), w);
      bsLive := bsLive + 8 * k;
      nextIn := nextIn + k;
      totalIn := totalIn + k;
    }

    /** GET_BITS: n bits, refilling by four bytes or by one; suspends when input runs out. */
    method GetBits(n: nat) returns (ok: bool, v: nat)
      requires Valid() && 1 <= n <= 20
      modifies this`bsBuff, this`bsLive, this`nextIn, this`totalIn, this`parsed
      ensures Valid() && nextIn - old(nextIn) == totalIn - old(totalIn) >= 0
      ensures ok ==> |old(Pending())| >= n && v == Val(old(Pending())[..n]) && v < Pow2(n)
      ensures ok ==> Pending() == old(Pending())[n..] && parsed == old(parsed) + n
      ensures !ok ==>
        Pending() == old(Pending()) && parsed == old(parsed) && |Pending()| < n && bsLive < n && nextIn == |input|
      ensures nextIn == old(nextIn) + Loaded(old(bsLive), |input| - old(nextIn), n)
    {
      hide ToBits, BytesToBits, Refill, Ok, TablesReady, TalliesReady, Pow2, Shr, Val, Word32, Loaded;
      v := 0;
      while true
        invariant Valid() && Pending() == old(Pending()) && parsed == old(parsed)
        invariant nextIn + Loaded(bsLive, |input| - nextIn, n)
          == old(nextIn) + Loaded(old(bsLive), |input| - old(nextIn), n)
        invariant nextIn - old(nextIn) == totalIn - old(totalIn) >= 0
        decreases |input| - nextIn
      {
        LoadedStep(bsLive, |input| - nextIn, n);
        if bsLive >= n {
          PendingTake(bsBuff, bsLive, n, BytesToBits(input[nextIn..]));
          v := Shr(bsBuff, bsLive - n) % Pow2(n);
          bsLive := bsLive - n;
          parsed := parsed + n;
          return true, v;
        }
        if |input| - nextIn >= 4 && bsLive <= 32 {
          Word32Bits(input[nextIn..nextIn + 4]);
          RefillFrom(4, Word32(input[nextIn..nextIn + 4]));
        } else {
          if nextIn == |input| {
            NoMoreInput(bsBuff, bsLive, input);
            return false, 0;
          }
          OneByte(input, nextIn);
          RefillFrom(1, input[nextIn]);
        }
      }
    }

    // The refill at the head of the fast path.
    method RefillWord()
      requires Valid() && bsLive <= 32 && |input| - nextIn >= 4
      modifies this`bsBuff, this`bsLive, this`nextIn, this`totalIn
      ensures Valid() && Pending() == old(Pending()) && nextIn - old(nextIn) == totalIn - old(totalIn) >= 0
    {
      hide ToBits, BytesToBits, Refill, Ok, TablesReady, TalliesReady, Pow2, Word32;
      Word32Bits(input[nextIn..nextIn + 4]);
      RefillFrom(4, Word32(input[nextIn..nextIn + 4]));
    }

    /** The fast symbol path: up to two table lookups instead of bit-by-bit decoding.
        A hit consumes exactly the bits the slow path would and reaches the same state. */
    method TryFast() returns (hit: bool)
      requires Valid() && parser.SymbolStart? && parser.site == AfterSymbol
      modifies this`bsBuff, this`bsLive, this`nextIn, this`totalIn, this`parsed, this`parser, this`unzftab
      ensures Valid() && RunBits(parser, Pending()) == old(RunBits(parser, Pending()))
      ensures nextIn - old(nextIn) == totalIn - old(totalIn) >= 0
      ensures if hit then old(parsed) < parsed && |Pending()| + (parsed - old(parsed)) == |old(Pending())|
              else parser == old(parser) && parsed == old(parsed) && Pending() == old(Pending())
    {
      hide ToBits, BytesToBits, Ok, OkBlock, TablesReady, TalliesReady, Pow2, RunBits, Symbol, FT.Sound, FT.EntryFor,
        Shr, Shl, Code, InGroup, CurrentLens, CurrentTable, FT.MarkerExtra, FT.MarkerOffset;
      if bsLive <= 32 && |input| - nextIn >= 4 {
        RefillWord();
      }
      hit := false;
      if bsLive >= FT.BITS {
        var b := parser.b;
        InGroupNow(parser);
        var gSel := b.c.selector[b.groupNo];
        var peek := Shr(bsBuff, bsLive - FT.BITS) % Pow2(FT.BITS);
        SoundFor(parser, decodeFast, decodeOverflow);
        FT.TblSize();
        var entry := decodeFast[gSel][peek];
        if entry > 0 {
          hit := true;
          Consume(entry, FT.BITS, peek);
        } else if entry < 0 {
          var extra, offset := FT.MarkerExtra(entry), FT.MarkerOffset(entry);
          var totalBits := FT.BITS + extra;
          SubTableFor(parser, decodeFast, decodeOverflow, peek);
          if bsLive >= totalBits {
            var extraVal := Shr(bsBuff, bsLive - totalBits) % Pow2(extra);
            ModLess(Shr(bsBuff, bsLive - totalBits), extra);
            var entry2 := decodeOverflow[gSel][offset + extraVal];
            if entry2 > 0 {
              hit := true;
              SubTableHit(parser, decodeFast, decodeOverflow, peek, extraVal);
              PeekWider(bsBuff, bsLive, extra);
              Consume(entry2, totalBits, Shl(peek, extra) + extraVal);
            }
          }
        }
      }
    }

    // Act on a table word for the symbol whose code starts the next `width` live bits.
    method Consume(entry: int, ghost width: nat, ghost window: nat)
      requires Valid() && parser.SymbolStart? && width <= bsLive
      requires window == Shr(bsBuff, bsLive - width) % Pow2(width)
      requires InGroup(parser.b) && FT.EntryFor(CurrentLens(parser.b), width, window, entry)
      modifies this`bsLive, this`parsed, this`parser, this`unzftab
      ensures Valid() && RunBits(parser, Pending()) == old(RunBits(parser, Pending()))
      ensures old(parsed) < parsed && |Pending()| + (parsed - old(parsed)) == |old(Pending())|
    {
      hide ToBits, BytesToBits, Ok, TablesReady, TalliesReady, Pow2, RunBits, Symbol, Shr, Code;
      var len, sym := entry / 0x1_0000, entry % 0x1_0000;
      EntryParts(parser, width, window, entry);
      FastAgrees(parser, bsBuff, bsLive, width, window, sym, BytesToBits(input[nextIn..]));
      SymbolTables(parser, sym, decodeFast, decodeOverflow);
      bsLive := bsLive - len;
      parsed := parsed + len;
      Tally(sym);
    }

    // Act on a decoded symbol: the byte counts and the parser's state.
    method Tally(sym: int)
      requires Ok(parser) && (parser.SymbolStart? || parser.SymbolBit?) && TalliesReady(parser, unzftab)
      requires OkBlock(parser.b) && 0 <= sym < |parser.b.c.unseq| + 2
      modifies this`parser, this`unzftab
      ensures parser == Symbol(old(parser).b, old(parser).site, sym) && TalliesReady(parser, unzftab)
    {
      hide Ok, OkBlock, TalliesReady, Tallied, Symbol, Finished, Dispatch, RunDigit, Repeat, CurrentLens, CurrentTable;
      var b, site := parser.b, parser.site;
      InRange(b);
      AtColumn(parser, unzftab);
      SymbolIs(b, site, sym);
      parser := Symbol(b, site, sym);
      if site == InRun && (sym == RUNA || sym == RUNB) {
        RunTallies(b, sym, unzftab);
        return;
      }
      if site == InRun {
        var uc := b.c.unseq[b.mtfa[0]];
        TallyRun(b.column, uc, b.es + 1, unzftab);
        unzftab := unzftab[uc := unzftab[uc] + (b.es + 1)];
      }
      FinishedIs(b, site, sym);
      if !parser.Failed? { DispatchTallies(Finished(b, site, sym), sym, unzftab); }
      if Literal(b, sym) {
        var uc := b.c.unseq[b.mtfa[sym - 1]];
        unzftab := unzftab[uc := unzftab[uc] + 1];
      }
      if parser.Failed? { FailedTallies(parser, unzftab); }
    }

    // Rebuild the decoding tables of every group from the freshly read code lengths.
    method BuildTables()
      requires nextIn <= |input| && Ok(parser) && parser.SymbolStart?
      modifies this`decodeFast, this`decodeOverflow
      ensures TablesReady(parser, decodeFast, decodeOverflow)
    {
      var lens := parser.b.lens;
      decodeFast, decodeOverflow := [], [];
      LensValid(parser);
      hide Ok, FT.Sound, MakeTable;
      for t := 0 to |lens|
        invariant TablesFor(lens[..t], decodeFast, decodeOverflow)
      {
        assert ValidLens(lens[t]);
        var fast, overflow := GroupTables(lens[t]);
        decodeFast, decodeOverflow := decodeFast + [fast], decodeOverflow + [overflow];
        assert lens[..t + 1] == lens[..t] + [lens[t]];
      }
      assert lens[..|lens|] == lens;
    }

    // The parser takes the bits just read.
    method Step(v: nat)
      requires Valid() && !Terminal(parser) && v < Pow2(Need(parser))
      modifies this`parser, this`decodeFast, this`decodeOverflow, this`unzftab
      ensures Valid() && parser == Next(old(parser), v)
    {
      hide Pow2, Next, Need, Ok, TalliesReady, Symbol;
      ghost var p := parser;
      NextOk(parser, v);
      if parser.LenStop? {
        parser := Next(parser, v);
        if parser.SymbolStart? {
          BuildTables();
          unzftab := seq(256, _ => 0);
          NothingDecoded(p, v);
          return;
        }
      } else if parser.SymbolStart? || parser.SymbolBit? {
        var sym := Completed(parser, v);
        CompletedIs(parser, v, unzftab);
        if 0 <= sym {
          Tally(sym);
        } else {
          parser := Next(parser, v);
        }
      } else {
        parser := Next(parser, v);
      }
      StepTables(p, v, decodeFast, decodeOverflow);
      if !p.SymbolStart? && !p.SymbolBit? { NotDecoding(p, v, unzftab); }
    }

    lemma EntryFacts()
      requires Valid() && !Terminal(parser)
      ensures nextIn <= |input| && Ok(parser) && !parser.Done?
      ensures Pending() == ToBits(bsBuff, bsLive) + BytesToBits(input[nextIn..])
      ensures 1 <= Need(parser) <= 20
    {
      hide Ok, TablesReady, TalliesReady, ToBits, BytesToBits;
    }

    lemma StillInside()
      requires Valid()
      ensures nextIn <= |input| && Ok(parser)
      ensures !Terminal(parser) && bsLive < Need(parser) ==> Resumable(parser, bsLive)
      ensures parser.Done? ==> Terminal(parser)
    {
      hide Ok, TablesReady, TalliesReady;
    }

    // The next bit field, unless the input ends inside it.
    method SlowStep() returns (ok: bool)
      requires Valid() && !Terminal(parser)
      modifies this`bsBuff, this`bsLive, this`nextIn, this`totalIn, this`parsed, this`parser, this`decodeFast,
        this`decodeOverflow, this`unzftab
      ensures Valid() && Ok(parser) && old(nextIn) <= nextIn <= |input|
      ensures nextIn - old(nextIn) == totalIn - old(totalIn)
      ensures RunBits(parser, Pending()) == old(RunBits(parser, Pending()))
      ensures if ok then old(parsed) < parsed && |Pending()| + (parsed - old(parsed)) == |old(Pending())|
              else parser == old(parser) && parsed == old(parsed) && Pending() == old(Pending())
      ensures !ok ==> |Pending()| < Need(parser) && nextIn == |input| && Resumable(parser, bsLive)
    {
      hide *;
      EntryFacts();
      var n := Need(parser);
      ghost var p, pending := parser, Pending();
      var v;
      ok, v := GetBits(n);
      if ok {
        Advance(p, pending, v);
        Step(v);
      }
      StillInside();
    }

    /** BZ2_decompress: parse until the block or the stream is complete, the data are bad,
        or input runs out; at stream end hand unread whole bytes back. */
    method Decompress()
      requires Valid() && Resumable(parser, bsLive) && !Terminal(parser)
      modifies this
      ensures parser == old(Fed(input[nextIn..])).0 && Ok(parser)
      ensures input == old(input) && old(nextIn) <= nextIn <= |input|
      ensures nextIn - old(nextIn) == totalIn - old(totalIn)
      ensures !parser.Done? ==> Valid() && Pending() == old(Fed(input[nextIn..])).1
      ensures !Terminal(parser) ==> nextIn == |input| && Resumable(parser, bsLive)
      ensures parser.Done? ==>
        && totalIn == (parsed + 7) / 8 && bsLive == 0
        && var rest := old(Fed(input[nextIn..])).1;
           parsed - old(parsed) == |old(Pending())| - |rest| && BytesToBits(input[nextIn..]) == WholeBytes(rest)
    {
      hide *;
      EntryFacts();
      FedIs(input[nextIn..]);
      ghost var p0, bits0 := parser, Pending();
      var literal := false;   // true right after a literal symbol, when the fast path is tried
      while !Terminal(parser)
        invariant Valid() && Ok(parser) && nextIn <= |input| && RunBits(parser, Pending()) == RunBits(p0, bits0)
        invariant input == old(input) && nextIn - old(nextIn) == totalIn - old(totalIn) >= 0
        invariant parsed - old(parsed) == |bits0| - |Pending()| >= 0
        invariant parsed == old(parsed) ==> parser == p0
        decreases |Pending()|
      {
        EntryFacts();
        var hit := false;
        if literal && parser.SymbolStart? && parser.site == AfterSymbol && parser.b.groupPos < G_SIZE - 1 {
          hit := TryFast();
        }
        if !hit {
          var ok := SlowStep();
          if !ok {
            Suspended(parser, Pending());
            return;
          }
        }
        StillInside();
        literal := parser.SymbolStart? && parser.site == AfterSymbol;
      }
      StillInside();
      Suspended(parser, Pending());
      if parser.Done? {
        GiveBack(p0, bits0, old(bsLive), old(bsBuff), old(nextIn));
      }
    }

    // The block has been output and its CRC found right: parse on.
    method ResumeAfterOutput()
      requires Valid() && parser.Output?
      modifies this`parser
      ensures Valid() && Resumable(parser, bsLive) && parser == BlockMagic(old(parser).h.level, 0)
    {
      parser := BlockMagic(parser.h.level, 0);
    }

    // Return whole unread bytes to the caller.
    method GiveBack(ghost p0: Parser, ghost bits0: seq<bool>, ghost live0: nat, ghost buf0: nat, ghost start: nat)
      requires Ok(p0) && Valid() && parser.Done? && Resumable(p0, live0) && !p0.Done?
      requires start <= nextIn && bits0 == ToBits(buf0, live0) + BytesToBits(input[start..])
      requires RunBits(p0, bits0) == (parser, Pending())
      modifies this`bsBuff, this`bsLive, this`nextIn, this`totalIn
      ensures bsLive == 0 && start <= nextIn <= |input| && nextIn - old(nextIn) == totalIn - old(totalIn)
      ensures totalIn == (parsed + 7) / 8
      ensures BytesToBits(input[nextIn..]) == WholeBytes(old(Pending()))
    {
      hide ToBits, BytesToBits, RunBits, Ok, Need, TablesReady, TalliesReady, ToDone;
      DoneNeedsBits(p0, bits0);
      OldBitsUsed(p0, live0);
      RunBitsEnds(p0, bits0);
      var excess := bsLive / 8;
      assert excess <= nextIn - start;
      TailOfRest(ToBits(buf0, live0), bits0, Pending(), input, start, nextIn - excess);
      nextIn := nextIn - excess;
      totalIn := totalIn - excess;
      bsLive := 0;
      bsBuff := 0;
    }
  }

  /** A wrong first byte does not stop the bytes behind it from being taken: of "Hello" the first field
      takes four bytes, though its value is already no stream's first byte. */
  method FourAtOnce() returns (d: Decoder, v: nat)
    ensures d.Valid() && d.nextIn == 4 && v == 0x48
  {
    hide *;
    d := new Decoder();
    var hello := [0x48, 0x65, 0x6c, 0x6c, 0x6f];
    d.Attach(hello);
    FreshInput(d);
    NothingBuffered(d);
    HelloBits();
    LoadsFour();
    assert [] + BytesToBits(hello) == BytesToBits(hello);
    var ok;
    ok, v := d.GetBits(8);
  }

  lemma NothingBuffered(d: Decoder)
    requires d.bsLive == 0
    ensures d.Buffered() == []
  {
  }

  lemma HelloBits()
    ensures Val(BytesToBits([0x48, 0x65, 0x6c, 0x6c, 0x6f])[..8]) == 0x48
  {
    hide ToBits, Val;
    BytesToBitsConcat([0x48], [0x65, 0x6c, 0x6c, 0x6f]);
    assert [0x48] + [0x65, 0x6c, 0x6c, 0x6f] == [0x48, 0x65, 0x6c, 0x6c, 0x6f];
    ByteBits(0x48);
    Widths(0);
    ValOfWord(0x48, 8);
  }

  lemma LoadsFour()
    ensures Loaded(0, 5, 8) == 4
  {
  }

  /** Whatever is taken as bytes comes in two calls or in one: the parser ends in the state, and the
      bits left are those, of the two inputs put together. */
  method FeedTwice(d: Decoder, x: seq<Byte>, y: seq<Byte>)
    requires d.Valid() && Resumable(d.parser, d.bsLive) && !Terminal(d.parser)
    requires !Terminal(d.Fed(x).0)
    modifies d
    ensures Ok(d.parser) && d.parser == old(d.Fed(x + y)).0
    ensures !d.parser.Done? ==> d.Valid() && d.Pending() == old(d.Fed(x + y)).1
    ensures d.parser.Done? ==> d.nextIn <= |y| && BytesToBits(y[d.nextIn..]) == WholeBytes(old(d.Fed(x + y)).1)
  {
    hide *;
    ghost var p, b := d.parser, d.Buffered();
    d.FedIs(x + y);
    d.FedIs(x);
    d.Attach(x);
    assert x[0..] == x;
    d.FedIs(x);
    d.Decompress();
    DoneIsTerminal(d.parser);
    FreshInput(d);
    ghost var q, r := d.parser, d.Buffered();
    d.Attach(y);
    assert y[0..] == y;
    d.FedIs(y);
    d.Decompress();
    RunBitsSplit(p, b + BytesToBits(x), BytesToBits(y));
    BytesToBitsConcat(x, y);
    assert b + (BytesToBits(x) + BytesToBits(y)) == b + BytesToBits(x) + BytesToBits(y);
  }

  lemma DoneIsTerminal(p: Parser)
    ensures p.Done? ==> Terminal(p)
  {
  }

  lemma FreshInput(d: Decoder)
    requires d.Valid()
    ensures Ok(d.parser) && d.nextIn <= |d.input|
    ensures d.nextIn == 0 ==> d.Pending() == d.Buffered() + BytesToBits(d.input)
    ensures d.nextIn == |d.input| ==> d.Pending() == d.Buffered()
  {
    hide Ok, TablesReady, TalliesReady, ToBits;
    if d.nextIn == |d.input| {
      assert d.input[d.nextIn..] == [] && BytesToBits([]) == [];
      assert d.Buffered() + [] == d.Buffered();
    }
    if d.nextIn == 0 { assert d.input[0..] == d.input; }
  }

  // A lower bound on the bits still to come before stream end.
  function ToDone(p: Parser): nat {
    match p
    case EndMagic(k) => if 0 <= k <= 6 then 8 * (6 - k) + 32 else 0
    case EndCrc(k, _) => if 0 <= k <= 4 then 8 * (4 - k) else 0
    case Done(_) => 0
    case _ => 80
  }

  lemma {:induction false} FlagsReadStays(h: Header, used16: seq<bool>, used: seq<bool>)
    requires |used16| == 16 && |used| <= 256
    ensures var q := FlagsRead(h, used16, used); q.Failed? || q.GroupCount? || q.Mapping256?
    decreases 256 - |used|
  {
    hide Unseq;
    if |used| < 256 && |used| % 16 == 0 && !used16[|used| / 16] {
      FlagsReadStays(h, used16, used + seq(16, _ => false));
    }
  }

  lemma SymbolStays(b: Block, site: Site, sym: int)
    requires OkBlock(b) && 0 <= sym < |b.c.unseq| + 2
    ensures var q := Symbol(b, site, sym); q.Failed? || q.Output? || (q.SymbolStart? && q.b.lens == b.lens)
  {
    hide OkBlock;
  }

  lemma ProbeStays(b: Block, site: Site, zn: int, zvec: int)
    requires OkBlock(b) && InGroup(b) && Probing(CurrentLens(b), zn, zvec)
    ensures var q := Probe(b, site, zn, zvec);
      q.Failed? || q.Output? || ((q.SymbolStart? || q.SymbolBit?) && q.b.lens == b.lens)
  {
    hide MakeTable, Limit, Base, MinLen, MaxLen, Symbol;
    ProbeIndex(CurrentLens(b), zn, zvec);
    var t := CurrentTable(b);
    if zn <= 20 && zvec <= t.limit[zn] && 0 <= zvec - t.base[zn] < 258 {
      SymbolStays(b, site, t.perm[zvec - t.base[zn]]);
    }
  }

  // Inside a block a step leads to another step of the block, to its end or to an error.
  lemma InBlockStays(p: Parser, v: nat)
    requires Ok(p) && !Terminal(p) && !p.Magic? && !p.BlockMagic? && !p.EndMagic? && !p.EndCrc?
    ensures var q := Next(p, v);
      && !q.EndMagic? && !q.EndCrc? && !q.Done? && (q.Output? ==> p.SymbolStart? || p.SymbolBit?)
      && ((q.SymbolStart? || q.SymbolBit?) && !p.LenStop? ==> (p.SymbolStart? || p.SymbolBit?) && q.b.lens == p.b.lens)
      && (q.SymbolBit? ==> p.SymbolStart? || p.SymbolBit?)
  {
    hide FlagsRead, Probe, ValidLens, MakeTable, MinLen, Limit, OkBlock;
    match p
    case Mapping16(h, used16) => if |used16| == 15 { FlagsReadStays(h, used16 + [v == 1], []); }
    case Mapping256(h, used16, used) => FlagsReadStays(h, used16, used + [v == 1]);
    case SymbolStart(b, site) => StartProbing(b, v); ProbeStays(b, site, CurrentTable(b).minLen, v);
    case SymbolBit(b, site, zn, zvec) => ProbeStays(b, site, zn, 2 * zvec + v);
    case _ =>
  }

  lemma ToDoneStep(p: Parser, v: nat)
    requires Ok(p) && !Terminal(p)
    ensures ToDone(p) <= Need(p) + ToDone(Next(p, v))
  {
    if !p.Magic? && !p.BlockMagic? && !p.EndMagic? && !p.EndCrc? {
      hide Ok, Next, Need;
      InBlockStays(p, v);
    }
  }

  // From a block header on, the trailer alone takes 80 bits.
  lemma {:induction false} DoneNeedsBits(p: Parser, bits: seq<bool>)
    requires Ok(p) && RunBits(p, bits).0.Done?
    ensures |bits| - |RunBits(p, bits).1| >= ToDone(p)
    decreases |bits|
  {
    hide Next, Need, Ok, Val, Pow2, ToDone;
    if !(Terminal(p) || |bits| < Need(p)) {
      var v := Val(bits[..Need(p)]);
      Advance(p, bits, v);
      ToDoneStep(p, v);
      DoneNeedsBits(Next(p, v), bits[Need(p)..]);
    } else {
      NothingToDo(p);
    }
  }

  lemma NothingToDo(p: Parser)
    requires p.Done?
    ensures ToDone(p) == 0
  {
  }

  // The 64-bit buffer of an earlier call is used up before stream end.
  lemma OldBitsUsed(p: Parser, live: nat)
    requires Resumable(p, live) && !p.Done?
    ensures live <= ToDone(p)
  {
    hide MakeTable, ValidLens;
  }

  lemma TailOfRest(front: seq<bool>, bits: seq<bool>, rest: seq<bool>, input: seq<Byte>, start: nat, at: nat)
    requires start <= at <= |input| && bits == front + BytesToBits(input[start..])
    requires |rest| <= |bits| && rest == bits[|bits| - |rest|..]
    requires 8 * (|input| - at) <= |rest| < 8 * (|input| - at) + 8
    ensures BytesToBits(input[at..]) == WholeBytes(rest)
  {
    hide BytesToBits;
    BytesToBitsConcat(input[start..at], input[at..]);
    assert input[start..] == input[start..at] + input[at..];
    var tail := BytesToBits(input[at..]);
    assert bits[|bits| - |tail|..] == tail;
    assert rest[|rest| % 8..] == bits[|bits| - |tail|..];
  }

  // ----- the byte counts

  lemma InRange(b: Block)
    requires OkBlock(b)
    ensures 1 <= |b.c.unseq| <= 256 == |b.mtfa| && -1 <= b.es && forall k :: 0 <= k < |b.c.unseq| ==>
      b.mtfa[k] < |b.c.unseq|
  {
    hide ValidLens, MakeTable;
  }

  predicate Literal(b: Block, sym: int) {
    sym != |b.c.unseq| + 1 && sym != RUNA && sym != RUNB
  }

  lemma DispatchTallies(b: Block, sym: int, counts: seq<int>)
    requires OkBlock(b) && 0 <= sym < |b.c.unseq| + 2 && Tallied(b.column, counts)
    requires |counts| == 256 && |b.mtfa| == 256 && |b.c.unseq| <= 256
    ensures !Literal(b, sym) ==> TalliesReady(Dispatch(b, sym), counts)
    ensures Literal(b, sym) ==> b.mtfa[sym - 1] < |b.c.unseq| && var c := b.c.unseq[b.mtfa[sym - 1]];
      TalliesReady(Dispatch(b, sym), counts[c := counts[c] + 1])
  {
    hide ValidLens, MakeTable, Tallied;
    if Literal(b, sym) {
      TallyOne(b.column, b.c.unseq[b.mtfa[sym - 1]], counts);
    }
  }

  lemma RunTallies(b: Block, sym: int, counts: seq<int>)
    requires OkBlock(b) && Tallied(b.column, counts) && (sym == RUNA || sym == RUNB)
    ensures TalliesReady(RunDigit(b, sym), counts)
  {
    hide ValidLens, MakeTable, Tallied;
  }

  // The block once the pending run is written.
  function Finished(b: Block, site: Site, sym: int): Block
    requires b.c.unseq != [] && b.mtfa != [] && b.mtfa[0] < |b.c.unseq|
  {
    if site == InRun && sym != RUNA && sym != RUNB then
      b.(column := b.column + Repeat(b.c.unseq[b.mtfa[0]], b.es + 1))
    else b
  }

  lemma SymbolIs(b: Block, site: Site, sym: int)
    requires OkBlock(b) && 0 <= sym < |b.c.unseq| + 2 && 1 <= |b.c.unseq| && |b.mtfa| == 256 && b.mtfa[0] < |b.c.unseq|
    ensures site == InRun && (sym == RUNA || sym == RUNB) ==> Symbol(b, site, sym) == RunDigit(b, sym)
    ensures !(site == InRun && (sym == RUNA || sym == RUNB)) ==>
      var q := Finished(b, site, sym);
      Symbol(b, site, sym).Failed? || (OkBlock(q) && Symbol(b, site, sym) == Dispatch(q, sym))
  {
    hide ValidLens, MakeTable, Dispatch, RunDigit;
  }

  lemma FinishedIs(b: Block, site: Site, sym: int)
    requires b.c.unseq != [] && b.mtfa != [] && b.mtfa[0] < |b.c.unseq|
    ensures var q := Finished(b, site, sym);
      q.c == b.c && q.mtfa == b.mtfa
      && q.column == if site == InRun && sym != RUNA && sym != RUNB then
                       b.column + Repeat(b.c.unseq[b.mtfa[0]], b.es + 1)
                     else b.column
  {
  }

  lemma AtColumn(p: Parser, unzftab: seq<int>)
    requires (p.SymbolStart? || p.SymbolBit?) && TalliesReady(p, unzftab)
    ensures Tallied(p.b.column, unzftab) && |unzftab| == 256
  {
  }

  lemma FailedTallies(p: Parser, unzftab: seq<int>)
    requires p.Failed?
    ensures TalliesReady(p, unzftab)
  {
  }

  // The symbol that a bit field completes, or -1.
  function Completed(p: Parser, v: nat): int
    requires Ok(p) && (p.SymbolStart? || p.SymbolBit?)
  {
    var t := CurrentTable(p.b);
    var zn, zvec := if p.SymbolStart? then t.minLen else p.zn, if p.SymbolStart? then v else 2 * p.zvec + v;
    ReadyToProbe(p, v);
    ProbeIndex(CurrentLens(p.b), zn, zvec);
    if zn <= 20 && zvec <= t.limit[zn] && 0 <= zvec - t.base[zn] < 258 then t.perm[zvec - t.base[zn]] else -1
  }

  lemma ReadyToProbe(p: Parser, v: nat)
    requires Ok(p) && (p.SymbolStart? || p.SymbolBit?)
    ensures OkBlock(p.b) && InGroup(p.b) && CurrentTable(p.b) == MakeTable(CurrentLens(p.b))
      && ValidLens(CurrentLens(p.b))
    ensures Probing(CurrentLens(p.b), if p.SymbolStart? then CurrentTable(p.b).minLen else p.zn,
                    if p.SymbolStart? then v else 2 * p.zvec + v)
  {
    hide OkBlock, MakeTable, MinLen, Limit, ValidLens;
    StartProbing(p.b, v);
  }

  lemma CompletedIs(p: Parser, v: nat, unzftab: seq<int>)
    requires Ok(p) && (p.SymbolStart? || p.SymbolBit?) && TalliesReady(p, unzftab)
    ensures OkBlock(p.b) && Completed(p, v) < |p.b.c.unseq| + 2
    ensures 0 <= Completed(p, v) ==> Next(p, v) == Symbol(p.b, p.site, Completed(p, v))
    ensures Completed(p, v) < 0 ==> TalliesReady(Next(p, v), unzftab)
  {
    hide OkBlock, MakeTable, MinLen, Limit, ValidLens, Symbol, Tallied;
    ReadyToProbe(p, v);
    LensWidth(p.b);
    MinMaxBounds(CurrentLens(p.b), |CurrentLens(p.b)|);
    var t := CurrentTable(p.b);
    ProbeIndex(CurrentLens(p.b), if p.SymbolStart? then t.minLen else p.zn,
               if p.SymbolStart? then v else 2 * p.zvec + v);
  }

  lemma LensWidth(b: Block)
    requires OkBlock(b) && InGroup(b)
    ensures |CurrentLens(b)| == |b.c.unseq| + 2
  {
    hide MakeTable, ValidLens;
  }

  lemma NothingDecoded(p: Parser, v: nat)
    requires Ok(p) && p.LenStop? && Next(p, v).SymbolStart?
    ensures TalliesReady(Next(p, v), seq(256, _ => 0))
  {
    hide MakeTable, ValidLens;
    TallyNone();
  }

  lemma NotDecoding(p: Parser, v: nat, unzftab: seq<int>)
    requires Ok(p) && !Terminal(p) && !p.SymbolStart? && !p.SymbolBit?
    requires p.LenStop? ==> !Next(p, v).SymbolStart?
    ensures TalliesReady(Next(p, v), unzftab)
  {
    if !p.Magic? && !p.BlockMagic? && !p.EndMagic? && !p.EndCrc? {
      hide Ok, Next, Tallied;
      InBlockStays(p, v);
    }
  }

  // The groups' tables, built in arrays as the parser's limit/base/perm and the fast tables.
  method GroupTables(lens: seq<int>) returns (fast: seq<int>, overflow: seq<int>)
    requires ValidLens(lens)
    ensures FT.Sound(lens, fast, overflow)
  {
    hide FT.Sound, MakeTable, FT.Complete, Fits, Perm;
    var n := |lens|;
    var length, limit, base, perm := new int[n](i requires 0 <= i < n => lens[i]), new int[258], new int[258],
      new int[258];
    assert length[..n] == lens;
    MinMaxBounds(lens, n);
    var minLen, maxLen := MinLen(lens, n), MaxLen(lens, n);
    CreateDecodeTables(limit, base, perm, length, minLen, maxLen, n);
    TablePerm(lens);
    var tbl, ovf := new int[FT.TBL_SIZE], new int[FT.OVF_SIZE];
    var used, abandoned := FT.BuildFastTable(tbl, ovf, length, perm, minLen, maxLen, n);
    fast, overflow := tbl[..], ovf[..];
  }

  lemma TablePerm(lens: seq<int>)
    ensures MakeTable(lens).perm == Perm(lens)
  {
  }

  lemma LensValid(p: Parser)
    requires Ok(p) && p.SymbolStart?
    ensures forall t :: 0 <= t < |p.b.lens| ==> ValidLens(p.b.lens[t])
  {
  }

  // The parser may be entered: it is at a fresh block header, or was suspended for want of bits.
  ghost predicate Resumable(p: Parser, live: nat) {
    Ok(p) && live <= 64 && (live == 0 || live < Need(p) || (p.BlockMagic? && p.k == 0))
  }

  lemma Advance(p: Parser, pending: seq<bool>, v: nat)
    requires Ok(p) && !Terminal(p) && |pending| >= Need(p) && v == Val(pending[..Need(p)])
    ensures v < Pow2(Need(p)) && Ok(Next(p, v)) && RunBits(p, pending) == RunBits(Next(p, v), pending[Need(p)..])
  {
    hide Next, Val, Need, Pow2, RunBits, Ok;
    RunBitsStep(p, pending[..Need(p)], pending[Need(p)..]);
    assert pending == pending[..Need(p)] + pending[Need(p)..];
  }

  // No step other than the end of the code lengths changes the tables in use.
  lemma StepTables(p: Parser, v: nat, fast: seq<seq<int>>, overflow: seq<seq<int>>)
    requires Ok(p) && !Terminal(p) && v < Pow2(Need(p)) && TablesReady(p, fast, overflow)
    requires !p.LenStop? || !Next(p, v).SymbolStart?
    ensures TablesReady(Next(p, v), fast, overflow)
  {
    hide TablesFor, Pow2;
    if !p.Magic? && !p.BlockMagic? && !p.EndMagic? && !p.EndCrc? {
      hide Ok, Next, Need;
      InBlockStays(p, v);
    }
  }

  lemma PendingTake(buf: nat, live: nat, n: nat, rest: seq<bool>)
    requires n <= live
    ensures var pending := ToBits(buf, live) + rest; var v := Shr(buf, live - n) % Pow2(n);
      && |pending| >= n && Val(pending[..n]) == v && v < Pow2(n) && pending[n..] == ToBits(buf, live - n) + rest
  {
    hide ToBits, Shr, Pow2, Val;
    TakeBits(buf, live, n);
    var a, c := ToBits(buf, live), ToBits(Shr(buf, live - n), n);
    assert (a + rest)[..n] == a[..n];
    assert (a + rest)[n..] == a[n..] + rest && a[n..] == ToBits(buf, live - n);
  }

  lemma NoMoreInput(buf: nat, live: nat, input: seq<Byte>)
    ensures |ToBits(buf, live) + BytesToBits(input[|input|..])| == live
  {
    hide ToBits;
  }

  lemma OneByte(input: seq<Byte>, at: nat)
    requires at < |input|
    ensures BytesToBits(input[at..at + 1]) == ToBits(input[at], Width(1)) && input[at] < Pow2(Width(1))
  {
    hide BytesToBits, ToBits, Pow2;
    ByteBits(input[at]);
    assert input[at..at + 1] == [input[at]];
  }

  lemma InGroupNow(p: Parser)
    requires Ok(p) && (p.SymbolStart? || p.SymbolBit?)
    ensures InGroup(p.b) && OkBlock(p.b)
  {
  }

  lemma SoundFor(p: Parser, fast: seq<seq<int>>, overflow: seq<seq<int>>)
    requires Ok(p) && p.SymbolStart? && InGroup(p.b) && TablesReady(p, fast, overflow)
    ensures var g := p.b.c.selector[p.b.groupNo];
      && g < |fast| && g < |overflow| && |fast[g]| == FT.TBL_SIZE && |overflow[g]| == FT.OVF_SIZE
      && FT.Sound(CurrentLens(p.b), fast[g], overflow[g])
      && forall k :: 0 <= k < FT.TBL_SIZE && 0 < fast[g][k] ==> FT.EntryFor(CurrentLens(p.b), FT.BITS, k, fast[g][k])
  {
    hide FT.EntryFor, OkBlock;
  }

  lemma SubTableFor(p: Parser, fast: seq<seq<int>>, overflow: seq<seq<int>>, peek: nat)
    requires Ok(p) && p.SymbolStart? && InGroup(p.b) && TablesReady(p, fast, overflow) && peek < FT.TBL_SIZE
    requires var g := p.b.c.selector[p.b.groupNo]; g < |fast| && |fast[g]| == FT.TBL_SIZE && fast[g][peek] < 0
    ensures var g := p.b.c.selector[p.b.groupNo]; var m := fast[g][peek];
      && g < |overflow| && FT.SubTableSound(CurrentLens(p.b), peek, m, overflow[g])
      && 1 <= FT.MarkerExtra(m) <= 9 && 0 <= FT.MarkerOffset(m)
      && FT.MarkerOffset(m) + Pow2(FT.MarkerExtra(m)) <= |overflow[g]|
  {
    hide FT.EntryFor, OkBlock, Pow2;
    SoundFor(p, fast, overflow);
  }

  lemma SubTableHit(p: Parser, fast: seq<seq<int>>, overflow: seq<seq<int>>, peek: nat, x: nat)
    requires Ok(p) && p.SymbolStart? && InGroup(p.b) && TablesReady(p, fast, overflow) && peek < FT.TBL_SIZE
    requires var g := p.b.c.selector[p.b.groupNo]; g < |fast| && |fast[g]| == FT.TBL_SIZE && fast[g][peek] < 0
    requires 0 <= FT.MarkerExtra(fast[p.b.c.selector[p.b.groupNo]][peek]) < 16
    requires x < Pow2(FT.MarkerExtra(fast[p.b.c.selector[p.b.groupNo]][peek]))
    ensures var g := p.b.c.selector[p.b.groupNo]; var m := fast[g][peek];
      && g < |overflow| && 0 <= FT.MarkerOffset(m) && FT.MarkerOffset(m) + x < |overflow[g]|
      && (0 < overflow[g][FT.MarkerOffset(m) + x] ==>
            FT.EntryFor(CurrentLens(p.b), FT.BITS + FT.MarkerExtra(m), Shl(peek, FT.MarkerExtra(m)) + x,
                        overflow[g][FT.MarkerOffset(m) + x]))
  {
    hide FT.EntryFor, OkBlock, Pow2, Shl, FT.MarkerOffset, FT.MarkerExtra;
    SubTableFor(p, fast, overflow, peek);
    var g := p.b.c.selector[p.b.groupNo];
    assert FT.At(overflow[g], FT.MarkerOffset(fast[g][peek]), x) == overflow[g][FT.MarkerOffset(fast[g][peek]) + x];
  }

  // The wider window is the peeked bits followed by the extra bits.
  lemma PeekWider(buf: nat, live: nat, extra: nat)
    requires FT.BITS + extra <= live
    ensures Shl(Shr(buf, live - FT.BITS) % Pow2(FT.BITS), extra) + Shr(buf, live - FT.BITS - extra) % Pow2(extra)
      == Shr(buf, live - FT.BITS - extra) % Pow2(FT.BITS + extra)
  {
    hide *;
    var y := Shr(buf, live - FT.BITS - extra);
    ShrPlus(buf, live - FT.BITS - extra, extra);
    ModSplit(y, FT.BITS, extra);
  }

  lemma {:induction false} ModSplit(y: nat, n: nat, m: nat)
    ensures y % Pow2(n + m) == Shl(Shr(y, m) % Pow2(n), m) + y % Pow2(m)
    decreases m
  {
    if m == 0 {
      assert y % 1 == 0;
    } else {
      ModSplit(y / 2, n, m - 1);
      HalveMod(y, Pow2(n + m - 1));
      HalveMod(y, Pow2(m - 1));
    }
  }

  lemma EntryParts(p: Parser, width: nat, window: nat, entry: int)
    requires Ok(p) && p.SymbolStart? && InGroup(p.b) && FT.EntryFor(CurrentLens(p.b), width, window, entry)
    ensures var s := entry % 0x1_0000; 0 <= s < |CurrentLens(p.b)| && CurrentLens(p.b)[s] == entry / 0x1_0000
    ensures 1 <= entry / 0x1_0000 <= width && FT.StartsWith(CurrentLens(p.b), entry % 0x1_0000, width, window)
  {
    hide Shr, Code, FT.Pack, OkBlock;
    FT.PackParts(entry / 0x1_0000, entry % 0x1_0000);
    var s := entry % 0x1_0000;
    FT.PackParts(CurrentLens(p.b)[s], s);
  }

  /** A table hit agrees with the slow path: consuming the symbol's bits at once reaches
      the state that reading them one by one reaches. */
  lemma FastAgrees(p: Parser, buf: nat, live: nat, width: nat, window: nat, s: int, rest: seq<bool>)
    requires Ok(p) && p.SymbolStart? && InGroup(p.b) && width <= live && window == Shr(buf, live - width) % Pow2(width)
    requires FT.StartsWith(CurrentLens(p.b), s, width, window)
    ensures var len := CurrentLens(p.b)[s];
      && 1 <= len <= width && OkBlock(p.b) && 0 <= s < |p.b.c.unseq| + 2 && Ok(Symbol(p.b, p.site, s))
      && RunBits(p, ToBits(buf, live) + rest) == RunBits(Symbol(p.b, p.site, s), ToBits(buf, live - len) + rest)
  {
    hide *;
    InGroupNow(p);
    var lens := CurrentLens(p.b);
    StartsLen(lens, s, width, window);
    var len, code := lens[s], Code(lens, s);
    WindowCode(lens, s, width, window, buf, live);
    LiveCode(buf, live, len, code, rest);
    ReadCode(p.b, p.site, s, code, len, ToBits(buf, live - len) + rest);
  }

  lemma StartsLen(lens: seq<int>, s: int, width: nat, w: nat)
    requires FT.StartsWith(lens, s, width, w)
    ensures 0 <= s < |lens| && 1 <= lens[s] <= width
  {
  }

  lemma LiveCode(buf: nat, live: nat, len: nat, code: nat, rest: seq<bool>)
    requires len <= live && code == Shr(buf, live - len) % Pow2(len)
    ensures ToBits(buf, live) + rest == ToBits(code, len) + (ToBits(buf, live - len) + rest)
  {
    hide ToBits, Shr, Pow2;
    TakeBits(buf, live, len);
    ToBitsMod(Shr(buf, live - len), len, len);
  }

  lemma WindowCode(lens: seq<int>, s: int, width: nat, window: nat, buf: nat, live: nat)
    requires FT.StartsWith(lens, s, width, window) && width <= live && window == Shr(buf, live - width) % Pow2(width)
    ensures Code(lens, s) == Shr(buf, live - lens[s]) % Pow2(lens[s]) && Code(lens, s) < Pow2(lens[s])
  {
    hide Shr, Code, Pow2, Shl;
    var n, m := lens[s], width - lens[s];
    var y := Shr(buf, live - width);
    ModSplit(y, n, m);
    ModLess(y, m);
    ShrShlPlus(Shr(y, m) % Pow2(n), y % Pow2(m), m);
    ShrPlus(buf, live - width, m);
    ModLess(Shr(y, m), n);
  }

  /** A hit in the primary table is what limit, base and perm make of the same bits. */
  lemma PrimaryHit(p: Parser, tbl: seq<int>, ovf: seq<int>, buf: nat, live: nat, rest: seq<bool>)
    requires Ok(p) && p.SymbolStart? && InGroup(p.b) && FT.Sound(CurrentLens(p.b), tbl, ovf) && FT.BITS <= live
    ensures var peek := Shr(buf, live - FT.BITS) % Pow2(FT.BITS);
      peek < |tbl| && (0 < tbl[peek] ==> HitAgrees(p, buf, live, tbl[peek], FT.BITS, rest))
  {
    hide ToBits, Ok, Pow2, RunBits, Symbol, Shr, FT.EntryFor, FT.SubTableSound;
    var peek := Shr(buf, live - FT.BITS) % Pow2(FT.BITS);
    FT.TblSize();
    ModLess(Shr(buf, live - FT.BITS), FT.BITS);
    if 0 < tbl[peek] { EntryAgrees(p, FT.BITS, peek, tbl[peek], buf, live, rest); }
  }

  /** So is a hit in the sub-table that a negative primary word leads to. */
  lemma OverflowHit(p: Parser, tbl: seq<int>, ovf: seq<int>, buf: nat, live: nat, rest: seq<bool>)
    requires Ok(p) && p.SymbolStart? && InGroup(p.b) && FT.Sound(CurrentLens(p.b), tbl, ovf) && FT.BITS <= live
    requires Shr(buf, live - FT.BITS) % Pow2(FT.BITS) < |tbl| && tbl[Shr(buf, live - FT.BITS) % Pow2(FT.BITS)] < 0
    ensures var m := tbl[Shr(buf, live - FT.BITS) % Pow2(FT.BITS)]; var extra, off := FT.MarkerExtra(m),
      FT.MarkerOffset(m);
      && 1 <= extra <= 9 && 0 <= off
      && (FT.BITS + extra <= live ==>
            var at := off + Shr(buf, live - FT.BITS - extra) % Pow2(extra);
            at < |ovf| && (0 < ovf[at] ==> HitAgrees(p, buf, live, ovf[at], FT.BITS + extra, rest)))
  {
    hide ToBits, Ok, Pow2, RunBits, Symbol, Shr, Shl, FT.EntryFor, FT.MarkerExtra, FT.MarkerOffset;
    var peek := Shr(buf, live - FT.BITS) % Pow2(FT.BITS);
    var m := tbl[peek];
    var extra, off := FT.MarkerExtra(m), FT.MarkerOffset(m);
    assert FT.SubTableSound(CurrentLens(p.b), peek, m, ovf);
    if FT.BITS + extra <= live {
      var y := Shr(buf, live - FT.BITS - extra);
      ModLess(y, extra);
      PeekWider(buf, live, extra);
      var v := FT.At(ovf, off, y % Pow2(extra));
      if 0 < v { EntryAgrees(p, FT.BITS + extra, Shl(peek, extra) + y % Pow2(extra), v, buf, live, rest); }
    }
  }

  // Taking the entry's length off the buffer and its symbol is decoding bit by bit.
  ghost predicate HitAgrees(p: Parser, buf: nat, live: nat, entry: int, width: nat, rest: seq<bool>)
    requires Ok(p) && p.SymbolStart?
  {
    var len, sym := entry / 0x1_0000, entry % 0x1_0000;
    && 1 <= len <= width && len <= live && OkBlock(p.b) && 0 <= sym < |p.b.c.unseq| + 2 && Ok(Symbol(p.b, p.site, sym))
    && RunBits(p, ToBits(buf, live) + rest) == RunBits(Symbol(p.b, p.site, sym), ToBits(buf, live - len) + rest)
  }

  lemma EntryAgrees(p: Parser, width: nat, window: nat, entry: int, buf: nat, live: nat, rest: seq<bool>)
    requires Ok(p) && p.SymbolStart? && InGroup(p.b) && FT.EntryFor(CurrentLens(p.b), width, window, entry)
    requires width <= live && window == Shr(buf, live - width) % Pow2(width)
    ensures HitAgrees(p, buf, live, entry, width, rest)
  {
    hide ToBits, Ok, Pow2, RunBits, Symbol, Shr, FT.EntryFor, FT.StartsWith, OkBlock;
    EntryParts(p, width, window, entry);
    FastAgrees(p, buf, live, width, window, entry % 0x1_0000, rest);
  }

  lemma SymbolTables(p: Parser, s: int, fast: seq<seq<int>>, overflow: seq<seq<int>>)
    requires Ok(p) && (p.SymbolStart? || p.SymbolBit?) && TablesReady(p, fast, overflow)
    requires OkBlock(p.b) && 0 <= s < |p.b.c.unseq| + 2
    ensures TablesReady(Symbol(p.b, p.site, s), fast, overflow)
  {
    hide ValidLens, MakeTable, FT.Sound, Ok;
  }

  lemma PendingRefill(buf: nat, live: nat, input: seq<Byte>, at: nat, k: nat, w: nat)
    requires at + k <= |input| && live + 8 * k <= 64
    requires w < Pow2(Width(k)) && BytesToBits(input[at..at + k]) == ToBits(w, Width(k))
    ensures Refill(buf, Width(k), w) < WORD64
    ensures ToBits(Refill(buf, Width(k), w), live + 8 * k) + BytesToBits(input[at + k..])
      == ToBits(buf, live) + BytesToBits(input[at..])
  {
    hide BytesToBits, ToBits, Pow2, Refill;
    RefillBits(buf, live, Width(k), w);
    BytesToBitsConcat(input[at..at + k], input[at + k..]);
    assert input[at..] == input[at..at + k] + input[at + k..];
  }
}
