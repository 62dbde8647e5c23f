/**
 The fixed parts of the format as literal bytes: what the printer writes for them, and which
 bytes the parser takes in their places and which it refuses.
 */
module Layout {
  import opened Bits
  import opened Codes
  import opened Parser
  import opened Printer

  // ----- what is written

  lemma {:induction false} BytesCons(c: Byte, s: seq<Byte>)
    ensures BytesToBits([c] + s) == ToBits(c, 8) + BytesToBits(s)
  {
    hide ToBits;
    BytesToBitsConcat([c], s);
    assert [c][..0] == [];
    assert BytesToBits([c]) == [] + ToBits(c, 8);
  }

  lemma SixBytes(a: Byte, b: Byte, c: Byte, d: Byte, e: Byte, f: Byte)
    ensures BytesToBits([a, b, c, d, e, f])
      == ToBits(a, 8) + (ToBits(b, 8) + (ToBits(c, 8) + (ToBits(d, 8) + (ToBits(e, 8) + ToBits(f, 8)))))
  {
    hide ToBits, BytesToBits;
    BytesCons(a, [b, c, d, e, f]);
    BytesCons(b, [c, d, e, f]);
    BytesCons(c, [d, e, f]);
    BytesCons(d, [e, f]);
    BytesCons(e, [f]);
    BytesCons(f, []);
    NoBytes();
    assert [a] + [b, c, d, e, f] == [a, b, c, d, e, f] && [b] + [c, d, e, f] == [b, c, d, e, f];
    assert [c] + [d, e, f] == [c, d, e, f] && [d] + [e, f] == [d, e, f] && [e] + [f] == [e, f] && [f] + [] == [f];
    assert ToBits(f, 8) + [] == ToBits(f, 8);
  }

  /** The block magic is 0x314159265359, the end magic 0x177245385090. */
  lemma MagicLiterals()
    ensures BlockMagicBits(0) == BytesToBits([0x31, 0x41, 0x59, 0x26, 0x53, 0x59])
    ensures EndMagicBits(0) == BytesToBits([0x17, 0x72, 0x45, 0x38, 0x50, 0x90])
  {
    hide ToBits, BytesToBits;
    SixBytes(0x31, 0x41, 0x59, 0x26, 0x53, 0x59);
    SixBytes(0x17, 0x72, 0x45, 0x38, 0x50, 0x90);
    assert BlockMagicBits(6) == [] && EndMagicBits(6) == [];
    assert BlockMagicBits(5) == ToBits(0x59, 8) && EndMagicBits(5) == ToBits(0x90, 8);
    assert BlockMagicBits(4) == ToBits(0x53, 8) + BlockMagicBits(5);
    assert EndMagicBits(4) == ToBits(0x50, 8) + EndMagicBits(5);
    assert BlockMagicBits(3) == ToBits(0x26, 8) + BlockMagicBits(4);
    assert EndMagicBits(3) == ToBits(0x38, 8) + EndMagicBits(4);
    assert BlockMagicBits(2) == ToBits(0x59, 8) + BlockMagicBits(3);
    assert EndMagicBits(2) == ToBits(0x45, 8) + EndMagicBits(3);
    assert BlockMagicBits(1) == ToBits(0x41, 8) + BlockMagicBits(2);
    assert EndMagicBits(1) == ToBits(0x72, 8) + EndMagicBits(2);
    assert BlockMagicBits(0) == ToBits(0x31, 8) + BlockMagicBits(1);
    assert EndMagicBits(0) == ToBits(0x17, 8) + EndMagicBits(1);
  }

  /** The stream header is "BZh" and the digit of the level. */
  lemma HeaderLiteral(level: int)
    requires 1 <= level <= 9
    ensures StreamHeaderBits(level) == BytesToBits([0x42, 0x5a, 0x68, 0x30 + level])
  {
    hide ToBits, BytesToBits;
    BytesCons(0x42, [0x5a, 0x68, 0x30 + level]);
    BytesCons(0x5a, [0x68, 0x30 + level]);
    BytesCons(0x68, [0x30 + level]);
    BytesCons(0x30 + level, []);
    NoBytes();
    assert [0x42] + [0x5a, 0x68, 0x30 + level] == [0x42, 0x5a, 0x68, 0x30 + level];
    assert [0x5a] + [0x68, 0x30 + level] == [0x5a, 0x68, 0x30 + level];
    assert [0x68] + [0x30 + level] == [0x68, 0x30 + level] && [0x30 + level] + [] == [0x30 + level];
    assert ToBits(0x30 + level, 8) + [] == ToBits(0x30 + level, 8);
  }

  lemma ByteOf(v: nat)
    ensures ToBits(v % 256, 8) == ToBits(v, 8)
  {
    assert Pow2(8) == 256;
    ToBitsMod(v, 8, 8);
  }

  lemma TopBytes(v: nat, n: nat)
    ensures ToBits(v, n + 8) == ToBits(v / 256, n) + ToBits(v % 256, 8)
  {
    hide ToBits;
    ToBitsSplit(v, n, 8);
    ShrIsDiv(v, 8);
    assert Pow2(8) == 256;
    ByteOf(v);
  }

  /** A CRC is written most significant bit first. */
  lemma U32Is(u: nat)
    requires u < 0x1_0000_0000
    ensures U32Bits(u) == ToBits(u, 32)
  {
    hide ToBits;
    TopBytes(u, 24);
    TopBytes(u / 0x100, 16);
    TopBytes(u / 0x1_0000, 8);
    Quotients(u);
    ByteOf(u / 0x100_0000);
  }

  lemma Quotients(u: nat)
    ensures u / 0x100 / 256 == u / 0x1_0000 && u / 0x1_0000 / 256 == u / 0x100_0000
  {
  }

  // ----- what is read

  lemma {:induction false} ReadByte(p: Parser, c: Byte, s: seq<Byte>)
    requires Ok(p) && !Terminal(p) && Need(p) == 8
    ensures Ok(Next(p, c)) && RunBits(p, BytesToBits([c] + s)) == RunBits(Next(p, c), BytesToBits(s))
  {
    hide *;
    BytesCons(c, s);
    ByteFieldIs(c);
    OneByteField(p, c, BytesToBits(s));
  }

  const BLOCK_MAGIC: seq<Byte> := [0x31, 0x41, 0x59, 0x26, 0x53, 0x59]
  const END_MAGIC: seq<Byte> := [0x17, 0x72, 0x45, 0x38, 0x50, 0x90]

  lemma {:induction false} RestOfMagic(level: int, k: nat, s: seq<Byte>)
    requires 1 <= level <= 9 && 1 <= k <= 5 && |s| == 6 - k
    ensures Ok(BlockMagic(level, k)) && RunBits(BlockMagic(level, k), BytesToBits(s))
      == if s == BLOCK_MAGIC[k..] then (BlockCrc(level, 0, 0), [])
         else (Failed(BadData), RunBits(BlockMagic(level, k), BytesToBits(s)).1)
    decreases 6 - k
  {
    hide RunBits, BytesToBits;
    assert s == [s[0]] + s[1..] && BLOCK_MAGIC[k..] == [BLOCK_MAGIC[k]] + BLOCK_MAGIC[k + 1..];
    ReadByte(BlockMagic(level, k), s[0], s[1..]);
    if s[0] != BLOCK_MAGIC[k] {
      StaysTerminal(Failed(BadData), BytesToBits(s[1..]));
    } else if k < 5 {
      RestOfMagic(level, k + 1, s[1..]);
    } else {
      NoBytes();
      assert s[1..] == [] && BLOCK_MAGIC[6..] == [];
      Suspended(BlockCrc(level, 0, 0), []);
    }
  }

  lemma {:induction false} RestOfEndMagic(k: nat, s: seq<Byte>)
    requires 1 <= k <= 5 && |s| == 6 - k
    ensures Ok(EndMagic(k)) && RunBits(EndMagic(k), BytesToBits(s))
      == if s == END_MAGIC[k..] then (EndCrc(0, 0), [])
         else (Failed(BadData), RunBits(EndMagic(k), BytesToBits(s)).1)
    decreases 6 - k
  {
    hide RunBits, BytesToBits;
    assert s == [s[0]] + s[1..] && END_MAGIC[k..] == [END_MAGIC[k]] + END_MAGIC[k + 1..];
    ReadByte(EndMagic(k), s[0], s[1..]);
    if s[0] != END_MAGIC[k] {
      StaysTerminal(Failed(BadData), BytesToBits(s[1..]));
    } else if k < 5 {
      RestOfEndMagic(k + 1, s[1..]);
    } else {
      NoBytes();
      assert s[1..] == [] && END_MAGIC[6..] == [];
      Suspended(EndCrc(0, 0), []);
    }
  }

  /** Where a block may start, the six bytes of the block magic lead to its CRC, the six of the end
      magic to the stream's, and any other six are a data error. */
  lemma SixBytesRead(level: int, s: seq<Byte>)
    requires 1 <= level <= 9 && |s| == 6
    ensures Ok(BlockMagic(level, 0))
    ensures var r := RunBits(BlockMagic(level, 0), BytesToBits(s));
      if s == [0x31, 0x41, 0x59, 0x26, 0x53, 0x59] then r == (BlockCrc(level, 0, 0), [])
      else if s == [0x17, 0x72, 0x45, 0x38, 0x50, 0x90] then r == (EndCrc(0, 0), [])
      else r.0 == Failed(BadData)
  {
    hide RunBits, BytesToBits;
    assert s == [s[0]] + s[1..];
    ReadByte(BlockMagic(level, 0), s[0], s[1..]);
    assert BLOCK_MAGIC == [0x31] + BLOCK_MAGIC[1..] && END_MAGIC == [0x17] + END_MAGIC[1..];
    if s[0] == 0x17 {
      RestOfEndMagic(1, s[1..]);
    } else if s[0] == 0x31 {
      RestOfMagic(level, 1, s[1..]);
    } else {
      StaysTerminal(Failed(BadData), BytesToBits(s[1..]));
    }
  }

  // ----- the stream header

  // The byte due at place i of a stream.
  predicate HeaderByte(i: int, c: Byte) {
    if i == 0 then c == 0x42 else if i == 1 then c == 0x5a else if i == 2 then c == 0x68 else 0x31 <= c <= 0x39
  }

  /** One of the first four bytes is not the one due there. */
  ghost predicate BadHeader(s: seq<Byte>) {
    exists i :: 0 <= i < 4 && i < |s| && !HeaderByte(i, s[i])
  }

  // What a step inside a block leads to.
  predicate Inner(q: Parser) {
    !q.Magic? && q != Failed(BadMagic) && !q.Done? && !q.EndCrc?
  }

  lemma {:induction false} FlagsReadError(h: Header, used16: seq<bool>, used: seq<bool>)
    requires |used16| == 16 && |used| <= 256
    ensures Inner(FlagsRead(h, used16, used))
    decreases 256 - |used|
  {
    hide Unseq;
    if |used| < 256 && |used| % 16 == 0 && !used16[|used| / 16] {
      FlagsReadError(h, used16, used + seq(16, _ => false));
    }
  }

  lemma SymbolError(b: Block, site: Site, sym: int)
    requires OkBlock(b) && 0 <= sym < |b.c.unseq| + 2
    ensures Inner(Symbol(b, site, sym))
  {
    hide ValidLens, MakeTable, MoveToFront;
  }

  lemma ProbeError(b: Block, site: Site, zn: int, zvec: int)
    requires OkBlock(b) && InGroup(b) && Probing(CurrentLens(b), zn, zvec)
    ensures Inner(Probe(b, site, zn, zvec))
  {
    hide MakeTable, MinLen, MaxLen, Limit, Base, Symbol, OkBlock;
    ProbeIndex(CurrentLens(b), zn, zvec);
    ProbeShape(b);
    var t := CurrentTable(b);
    if zn <= 20 && zvec <= t.limit[zn] && 0 <= zvec - t.base[zn] < 258 {
      SymbolError(b, site, t.perm[zvec - t.base[zn]]);
    }
  }

  lemma ProbeShape(b: Block)
    requires OkBlock(b) && InGroup(b)
    ensures CurrentTable(b) == MakeTable(CurrentLens(b)) && |CurrentLens(b)| == |b.c.unseq| + 2
  {
    hide MakeTable, ValidLens;
  }

  lemma StepError(p: Parser, v: nat)
    requires Ok(p) && !Terminal(p) && !p.Magic?
    ensures var q := Next(p, v);
      !q.Magic? && q != Failed(BadMagic)
      && (!p.EndCrc? ==> !q.Done? && (q.EndCrc? ==> q == EndCrc(0, 0)))
  {
    hide FlagsRead, Probe, ValidLens, MakeTable, MinLen, Limit, OkBlock;
    match p
    case Mapping16(h, used16) => if |used16| == 15 { FlagsReadError(h, used16 + [v == 1], []); }
    case Mapping256(h, used16, used) => FlagsReadError(h, used16, used + [v == 1]);
    case SymbolStart(b, site) =>
      StartProbing(b, v);
      ProbeError(b, site, CurrentTable(b).minLen, v);
    case SymbolBit(b, site, zn, zvec) => ProbeError(b, site, zn, 2 * zvec + v);
    case _ =>
  }

  // Once the header is read, no bad magic is reported.
  lemma {:induction false} NoMagicError(p: Parser, bits: seq<bool>)
    requires Ok(p) && !p.Magic? && p != Failed(BadMagic)
    ensures var q := RunBits(p, bits).0; !q.Magic? && q != Failed(BadMagic)
    decreases |bits|
  {
    hide Ok, Next, Val, Need, Pow2;
    if !Terminal(p) && |bits| >= Need(p) {
      ToBitsVal(bits[..Need(p)]);
      var v := Val(bits[..Need(p)]);
      NextOk(p, v);
      StepError(p, v);
      NeedPositive(p);
      NoMagicError(Next(p, v), bits[Need(p)..]);
    }
  }

  lemma NeedPositive(p: Parser)
    requires Ok(p) && !Terminal(p)
    ensures 0 < Need(p)
  {
    hide ValidLens, MakeTable;
  }

  lemma {:induction false} HeaderRead(k: nat, s: seq<Byte>)
    requires k <= 3
    ensures Ok(Magic(k)) && (RunBits(Magic(k), BytesToBits(s)).0 == Failed(BadMagic)
      <==> exists i :: 0 <= i < 4 - k && i < |s| && !HeaderByte(k + i, s[i]))
    decreases 4 - k
  {
    hide RunBits, BytesToBits;
    if s == [] {
      NoBytes();
      Suspended(Magic(k), []);
    } else {
      assert s == [s[0]] + s[1..];
      ReadByte(Magic(k), s[0], s[1..]);
      if !HeaderByte(k, s[0]) {
        StaysTerminal(Failed(BadMagic), BytesToBits(s[1..]));
        assert !HeaderByte(k + 0, s[0]);
      } else if k < 3 {
        HeaderRead(k + 1, s[1..]);
        HeaderOn(k, s);
      } else {
        NoMagicError(BlockMagic(s[0] - 0x30, 0), BytesToBits(s[1..]));
      }
    }
  }

  lemma HeaderOn(k: nat, s: seq<Byte>)
    requires k < 3 && s != [] && HeaderByte(k, s[0])
    ensures (exists i :: 0 <= i < 4 - k && i < |s| && !HeaderByte(k + i, s[i]))
      <==> exists i :: 0 <= i < 3 - k && i < |s[1..]| && !HeaderByte(k + 1 + i, s[1..][i])
  {
    if i :| 0 <= i < 4 - k && i < |s| && !HeaderByte(k + i, s[i]) {
      assert i != 0 && s[1..][i - 1] == s[i] && !HeaderByte(k + 1 + (i - 1), s[1..][i - 1]);
    }
    if i :| 0 <= i < 3 - k && i < |s[1..]| && !HeaderByte(k + 1 + i, s[1..][i]) {
      assert s[i + 1] == s[1..][i] && !HeaderByte(k + (i + 1), s[i + 1]);
    }
  }

  // ----- the end of a stream

  lemma PushByteIs(acc: nat, v: nat, k: nat)
    requires k <= 3 && acc < Pow2(8 * k) && v < 256
    ensures PushByte(acc, v) == acc * 256 + v < Pow2(8 * k + 8)
    ensures ToBits(PushByte(acc, v), 8 * k + 8) == ToBits(acc, 8 * k) + ToBits(v, 8)
  {
    hide ToBits;
    assert Pow2(8) == 256;
    Pow2Add(8 * k, 8);
    Pow2Mono(8 * k, 24);
    assert Pow2(24) == 0x100_0000 by { Pow2Add(16, 8); Pow2Add(8, 8); }
    TopBytes(acc * 256 + v, 8 * k);
  }

  lemma {:induction false} EndCrcRead(k: nat, acc: nat, bits: seq<bool>)
    requires k <= 3 && acc < Pow2(8 * k) && Ok(EndCrc(k, acc))
    requires RunBits(EndCrc(k, acc), bits).0.Done?
    ensures |bits| >= 32 - 8 * k && RunBits(EndCrc(k, acc), bits).1 == bits[32 - 8 * k..]
    ensures ToBits(RunBits(EndCrc(k, acc), bits).0.crc, 32) == ToBits(acc, 8 * k) + bits[..32 - 8 * k]
    decreases 4 - k
  {
    hide RunBits, ToBits, Pow2, Val, PushByte;
    EndCrcFacts(k, acc);
    if |bits| < 8 {
      Suspended(EndCrc(k, acc), bits);
    } else {
      var v := Val(bits[..8]);
      ToBitsVal(bits[..8]);
      Pow8();
      RunBitsStep(EndCrc(k, acc), bits[..8], bits[8..]);
      assert bits == bits[..8] + bits[8..];
      PushByteIs(acc, v, k);
      if k < 3 {
        EndCrcRead(k + 1, PushByte(acc, v), bits[8..]);
        assert bits[..8] + bits[8..][..32 - 8 * k - 8] == bits[..32 - 8 * k];
      } else {
        StaysTerminal(Done(PushByte(acc, v)), bits[8..]);
      }
    }
  }

  lemma Pow8()
    ensures Pow2(8) == 256
  {
    assert Pow2(8) == 256;
  }

  lemma EndCrcFacts(k: nat, acc: nat)
    requires k <= 3 && acc < Pow2(8 * k)
    ensures var p := EndCrc(k, acc); Ok(p) && !Terminal(p) && Need(p) == 8
    ensures forall v: nat ::
      Next(EndCrc(k, acc), v) == if k < 3 then EndCrc(k + 1, PushByte(acc, v)) else Done(PushByte(acc, v))
  {
    hide Pow2;
    Pow2Mono(8 * k, 32);
    Pow2Is64();
  }

  /** The CRC at the end of a stream is the last 32 bits that were read. */
  lemma {:induction false} TrailerRead(p: Parser, bits: seq<bool>)
    requires Ok(p) && !p.EndCrc? && !p.Done? && RunBits(p, bits).0.Done?
    ensures var (q, rest) := RunBits(p, bits);
      |rest| + 32 <= |bits| && bits[|bits| - |rest| - 32..|bits| - |rest|] == ToBits(q.crc, 32)
    decreases |bits|
  {
    hide Ok, Next, Val, Need, Pow2, RunBits, ToBits;
    RunBitsEnds(p, bits);
    if Terminal(p) {
      StaysTerminal(p, bits);
    } else if |bits| < Need(p) {
      Suspended(p, bits);
    } else {
      var front, back := bits[..Need(p)], bits[Need(p)..];
      ToBitsVal(front);
      RunBitsStep(p, front, back);
      assert bits == front + back;
      var q := Next(p, Val(front));
      NeedPositive(p);
      TrailerStep(p, Val(front));
      if q.EndCrc? {
        ZeroField();
        EndCrcRead(0, 0, back);
        assert back == back[..32] + back[32..];
        assert [] + back[..32] == back[..32];
      } else {
        TrailerRead(q, back);
      }
    }
  }

  lemma ZeroField()
    ensures 0 < Pow2(8 * 0) && ToBits(0, 8 * 0) == []
  {
  }

  lemma TrailerStep(p: Parser, v: nat)
    requires Ok(p) && !Terminal(p) && !p.EndCrc?
    ensures var q := Next(p, v); !q.Done? && (q.EndCrc? ==> q == EndCrc(0, 0))
  {
    if !p.Magic? {
      hide Ok, Next;
      StepError(p, v);
    }
  }

  // ----- what the other fields of a block may hold

  /** The randomisation bit goes into the header. */
  lemma RandomisedFlag(level: int, crc: nat, b: bool, tail: seq<bool>)
    requires 1 <= level <= 9 && crc < 0x1_0000_0000
    ensures Ok(RandBit(level, crc)) && Ok(OrigPtr(Header(level, crc, b, 0), 0))
    ensures RunBits(RandBit(level, crc), [b] + tail) == RunBits(OrigPtr(Header(level, crc, b, 0), 0), tail)
  {
    hide RunBits;
    OneBit(RandBit(level, crc), b, tail);
  }

  /** A block with no byte in use is refused. */
  lemma NoByteInUse(h: Header, tail: seq<bool>)
    requires OkHeader(h)
    ensures Ok(Mapping16(h, [])) && RunBits(Mapping16(h, []), seq(16, _ => false) + tail) == (Failed(BadData), tail)
  {
    hide RunBits, Unseq;
    var u := seq(16, _ => false);
    assert u[..0] == [] && u[0..] == u;
    Read16(h, u, 0, tail);
    NoFlags(h, u, []);
    RefusedStays(tail);
  }

  lemma {:induction false} NoFlags(h: Header, u: seq<bool>, used: seq<bool>)
    requires |u| == 16 && (forall i :: 0 <= i < 16 ==> !u[i]) && |used| <= 256 && |used| % 16 == 0
    requires forall i :: 0 <= i < |used| ==> !used[i]
    ensures FlagsRead(h, u, used) == Failed(BadData)
    decreases 256 - |used|
  {
    hide Unseq;
    if |used| == 256 {
      NoneInUse(used, 256);
    } else {
      NoFlags(h, u, used + seq(16, _ => false));
    }
  }

  lemma {:induction false} NoneInUse(used: seq<bool>, i: nat)
    requires i <= |used| <= 256 && forall k :: 0 <= k < |used| ==> !used[k]
    ensures Unseq(used, i) == []
    decreases i
  {
    if i != 0 { NoneInUse(used, i - 1); }
  }

  /** There are two to six tables and at least one selector. */
  lemma CountLimits(h: Header, unseq: seq<Byte>, v: nat, tail: seq<bool>)
    requires OkHeader(h) && 1 <= |unseq| <= 256 && v < 8
    ensures Ok(GroupCount(h, unseq)) && (2 <= v <= 6 ==> Ok(SelectorCount(h, unseq, v)))
    ensures RunBits(GroupCount(h, unseq), ToBits(v, 3) + tail)
      == if 2 <= v <= 6 then RunBits(SelectorCount(h, unseq, v), tail) else (Failed(BadData), tail)
    ensures 2 <= v <= 6 ==> RunBits(SelectorCount(h, unseq, v), ToBits(0, 15) + tail) == (Failed(BadData), tail)
  {
    Pow2Small();
    hide RunBits, ToBits, Pow2;
    RefusedStays(tail);
    OneField(GroupCount(h, unseq), v, 3, tail);
    if 2 <= v <= 6 { OneField(SelectorCount(h, unseq, v), 0, 15, tail); }
  }

  /** A selector of as many ones as there are tables is refused. */
  lemma {:induction false} SelectorLimit(h: Header, unseq: seq<Byte>, nGroups: int, nSel: int, i: int, mtf: seq<int>,
                                         j: int, tail: seq<bool>)
    requires OkSelecting(h, unseq, nGroups, nSel, i, mtf, j)
    ensures RunBits(SelectorBit(h, unseq, nGroups, nSel, i, mtf, j), Ones(nGroups - j) + tail) ==
      (Failed(BadData), tail)
    decreases nGroups - j
  {
    hide RunBits;
    assert Ones(nGroups - j) + tail == [true] + (Ones(nGroups - j - 1) + tail);
    OneBit(SelectorBit(h, unseq, nGroups, nSel, i, mtf, j), true, Ones(nGroups - j - 1) + tail);
    if j + 1 == nGroups {
      assert Ones(0) + tail == tail;
      RefusedStays(tail);
    } else {
      SelectorLimit(h, unseq, nGroups, nSel, i, mtf, j + 1, tail);
    }
  }

  /** Code lengths start at 1 to 20 and never step outside. */
  lemma LengthLimits(c: Coding, lens: seq<seq<int>>, cur: seq<int>, v: nat, tail: seq<bool>)
    requires OkReading(c, lens, cur, 1) && OkReading(c, lens, cur, 20) && v < 32
    ensures Ok(FirstLen(c, lens)) && (1 <= v <= 20 ==> Ok(LenStop(c, lens, [], v)))
    ensures RunBits(FirstLen(c, lens), ToBits(v, 5) + tail)
      == if 1 <= v <= 20 then RunBits(LenStop(c, lens, [], v), tail) else (Failed(BadData), tail)
    ensures RunBits(LenStop(c, lens, cur, 20), [true] + ([false] + tail)) == (Failed(BadData), tail)
    ensures RunBits(LenStop(c, lens, cur, 1), [true] + ([true] + tail)) == (Failed(BadData), tail)
  {
    Pow2Small();
    hide RunBits, ToBits, Pow2, OkLens, OkCoding;
    RefusedStays(tail);
    OneField(FirstLen(c, lens), v, 5, tail);
    OneBit(LenStop(c, lens, cur, 20), true, [false] + tail);
    OneBit(LenStep(c, lens, cur, 20), false, tail);
    OneBit(LenStop(c, lens, cur, 1), true, [true] + tail);
    OneBit(LenStep(c, lens, cur, 1), true, tail);
  }
}
