/**
 The resumable block parser (BZ2_decompress).  Each constructor of Parser is a
 group of GET_BITS labels with the variables live there; Next is the code run
 between one successful GET_BITS and the following one.
 */
module Parser {
  import opened Bits
  import opened Codes

  const RUNA: int := 0
  const RUNB: int := 1
  const G_SIZE: int := 50
  const N_GROUPS: int := 6
  const MAX_SELECTORS: int := 18002
  const RUN_GUARD: int := 2 * 1024 * 1024

  datatype Error = BadMagic | BadData

  // Stream level (1..9), stored block CRC, randomised flag, origPtr.
  datatype Header = Header(level: int, crc: nat, randomised: bool, origPtr: nat)

  // What the coding tables of a block are read against.
  datatype Coding = Coding(h: Header, unseq: seq<Byte>, nGroups: int, selector: seq<int>)

  // Which of the three GET_MTF_VAL sites is active.
  datatype Site = AtStart | InRun | AfterSymbol

  datatype Block = Block(c: Coding, lens: seq<seq<int>>, tables: seq<Table>, groupNo: int, groupPos: int,
                         mtfa: seq<Byte>, es: int, n: int, column: seq<Byte>)

  datatype Parser =
    | Magic(k: int)                                              // BZ_X_MAGIC_1..4
    | BlockMagic(level: int, k: int)                             // BZ_X_BLKHDR_1..6
    | BlockCrc(level: int, k: int, crc: nat)                     // BZ_X_BCRC_1..4
    | RandBit(level: int, crc: nat)                              // BZ_X_RANDBIT
    | OrigPtr(h: Header, k: int)                                 // BZ_X_ORIGPTR_1..3
    | Mapping16(h: Header, used16: seq<bool>)                    // BZ_X_MAPPING_1
    | Mapping256(h: Header, used16: seq<bool>, used: seq<bool>)  // BZ_X_MAPPING_2
    | GroupCount(h: Header, unseq: seq<Byte>)                    // BZ_X_SELECTOR_1
    | SelectorCount(h: Header, unseq: seq<Byte>, nGroups: int)   // BZ_X_SELECTOR_2
    // BZ_X_SELECTOR_3
    | SelectorBit(h: Header, unseq: seq<Byte>, nGroups: int, nSelectors: int, i: int, mtf: seq<int>, j: int)
    | FirstLen(c: Coding, lens: seq<seq<int>>)                   // BZ_X_CODING_1
    | LenStop(c: Coding, lens: seq<seq<int>>, cur: seq<int>, curr: int)  // BZ_X_CODING_2
    | LenStep(c: Coding, lens: seq<seq<int>>, cur: seq<int>, curr: int)  // BZ_X_CODING_3
    | SymbolStart(b: Block, site: Site)                          // BZ_X_MTF_1, _3, _5
    | SymbolBit(b: Block, site: Site, zn: int, zvec: int)        // BZ_X_MTF_2, _4, _6
    | Output(h: Header, column: seq<Byte>)                       // BZ_X_OUTPUT
    | EndMagic(k: int)                                           // BZ_X_ENDHDR_2..6
    | EndCrc(k: int, crc: nat)                                   // BZ_X_CCRC_1..4
    | Done(crc: nat)                                             // BZ_STREAM_END
    | Failed(error: Error)

  // ----- pieces of the transition function

  function MagicByte(k: int): int { if k == 0 then 0x42 else if k == 1 then 0x5a else 0x68 }

  function BlockMagicByte(k: int): int {
    if k == 0 then 0x31 else if k == 1 then 0x41 else if k == 2 then 0x59
    else if k == 3 then 0x26 else if k == 4 then 0x53 else 0x59
  }

  function EndMagicByte(k: int): int {
    if k == 0 then 0x17 else if k == 1 then 0x72 else if k == 2 then 0x45
    else if k == 3 then 0x38 else if k == 4 then 0x50 else 0x90
  }

  // x << 8 | byte on a 32-bit word
  function PushByte(x: nat, v: nat): nat { x * 256 % 0x1_0000_0000 + v }

  // makeMaps_d
  function Unseq(used: seq<bool>, i: nat): (u: seq<Byte>)
    requires i <= |used| <= 256
    decreases i
  {
    if i == 0 then [] else Unseq(used, i - 1) + (if used[i - 1] then [i - 1] else [])
  }

  // Skip the 16-byte groups with no byte in use, then ask for the next flag or go on.
  function FlagsRead(h: Header, used16: seq<bool>, used: seq<bool>): Parser
    requires |used16| == 16 && |used| <= 256
    decreases 256 - |used|
  {
    if |used| == 256 then
      var u := Unseq(used, 256);
      if u == [] then Failed(BadData) else GroupCount(h, u)
    else if |used| % 16 == 0 && !used16[|used| / 16] then
      FlagsRead(h, used16, used + seq(16, _ => false))
    else Mapping256(h, used16, used)
  }

  // Undo the move-to-front coding of the selectors.
  function MoveToFront<T>(p: seq<T>, v: nat): seq<T>
    requires v < |p|
  {
    [p[v]] + p[..v] + p[v + 1..]
  }

  function UndoSelectorMtf(mtf: seq<int>, pos: seq<int>): (sel: seq<int>)
    decreases |mtf|
  {
    if mtf == [] || mtf[0] < 0 || mtf[0] >= |pos| then []
    else [pos[mtf[0]]] + UndoSelectorMtf(mtf[1..], MoveToFront(pos, mtf[0]))
  }

  function Iota(n: nat): (s: seq<int>)
    ensures |s| == n && forall i :: 0 <= i < n ==> s[i] == i
  {
    seq(n, i => i)
  }

  // One selector read completely (unary value j).
  function SelectorRead(h: Header, unseq: seq<Byte>, nGroups: int, nSelectors: int, i: int, mtf: seq<int>,
                        j: int): Parser
    requires 0 <= nGroups
  {
    var mtf' := if i < MAX_SELECTORS then mtf + [j] else mtf;
    if i + 1 < nSelectors then SelectorBit(h, unseq, nGroups, nSelectors, i + 1, mtf', 0)
    else FirstLen(Coding(h, unseq, nGroups, UndoSelectorMtf(mtf', Iota(nGroups))), [])
  }

  // A code length in range, or a data error.
  function LenChecked(c: Coding, lens: seq<seq<int>>, cur: seq<int>, curr: int): Parser {
    if curr < 1 || curr > 20 then Failed(BadData) else LenStop(c, lens, cur, curr)
  }

  // Decoding starts: tables from all lengths, the byte list in order, nothing decoded.
  function StartBlock(c: Coding, lens: seq<seq<int>>): Block {
    Block(c, lens, seq(|lens|, t requires 0 <= t < |lens| => MakeTable(lens[t])), -1, 0,
          seq(256, i => if 0 <= i < 256 then i else 0), 0, 0, [])
  }

  function LenRead(c: Coding, lens: seq<seq<int>>, cur: seq<int>, curr: int): Parser {
    var cur' := cur + [curr];
    if |cur'| < |c.unseq| + 2 then LenChecked(c, lens, cur', curr)
    else
      var lens' := lens + [cur'];
      if |lens'| < c.nGroups then FirstLen(c, lens')
      else NextSymbol(StartBlock(c, lens'), AtStart)
  }

  // The head of GET_MTF_VAL: switch group every 50 symbols.
  function NextSymbol(b: Block, site: Site): Parser {
    if b.groupPos == 0 then
      if b.groupNo + 1 >= |b.c.selector| then Failed(BadData)
      else SymbolStart(b.(groupNo := b.groupNo + 1, groupPos := G_SIZE - 1), site)
    else SymbolStart(b.(groupPos := b.groupPos - 1), site)
  }

  predicate InGroup(b: Block) {
    0 <= b.groupNo < |b.c.selector| && 0 <= b.c.selector[b.groupNo] < |b.tables| == |b.lens|
  }

  function CurrentTable(b: Block): Table
    requires InGroup(b)
  {
    b.tables[b.c.selector[b.groupNo]]
  }

  function CurrentLens(b: Block): seq<int>
    requires InGroup(b)
  {
    b.lens[b.c.selector[b.groupNo]]
  }

  // The loop of GET_MTF_VAL with zn bits in zvec.
  function Probe(b: Block, site: Site, zn: int, zvec: int): Parser
    requires OkBlock(b) && InGroup(b) && Probing(CurrentLens(b), zn, zvec)
  {
    ProbeIndex(CurrentLens(b), zn, zvec);
    var t := CurrentTable(b);
    if zn > 20 then Failed(BadData)
    else if zvec <= t.limit[zn] then
      var k := zvec - t.base[zn];
      if k < 0 || k >= 258 then Failed(BadData) else Symbol(b, site, t.perm[k])
    else SymbolBit(b, site, zn + 1, zvec)
  }

  // A symbol has been decoded at the given site.
  function Symbol(b: Block, site: Site, sym: int): Parser
    requires OkBlock(b) && 0 <= sym < |b.c.unseq| + 2
  {
    if site == InRun then
      if sym == RUNA || sym == RUNB then RunDigit(b, sym)
      else
        // the run is complete
        var es := b.es + 1;
        if |b.column| + es > 100000 * b.c.h.level then Failed(BadData)
        else Dispatch(b.(column := b.column + Repeat(b.c.unseq[b.mtfa[0]], es)), sym)
    else Dispatch(b, sym)
  }

  // The top of the decoding loop.
  function Dispatch(b: Block, sym: int): Parser
    requires OkBlock(b) && 0 <= sym < |b.c.unseq| + 2
  {
    if sym == |b.c.unseq| + 1 then
      // end of block
      if b.c.h.origPtr >= |b.column| then Failed(BadData) else Output(b.c.h, b.column)
    else if sym == RUNA || sym == RUNB then RunDigit(b.(es := -1, n := 1), sym)
    else if |b.column| >= 100000 * b.c.h.level then Failed(BadData)
    else
      var nn := sym - 1;
      NextSymbol(b.(mtfa := MoveToFront(b.mtfa, nn), column := b.column + [b.c.unseq[b.mtfa[nn]]]), AfterSymbol)
  }

  function RunDigit(b: Block, sym: int): Parser {
    if b.n >= RUN_GUARD then Failed(BadData)
    else NextSymbol(b.(es := b.es + (if sym == RUNA then 1 else 2) * b.n, n := b.n * 2), InRun)
  }

  function Repeat<T>(x: T, n: int): (s: seq<T>)
    ensures |s| == if n < 0 then 0 else n
    ensures forall i :: 0 <= i < |s| ==> s[i] == x
  {
    seq(if n < 0 then 0 else n, _ => x)
  }

  // ----- the invariant of every reachable parser state

  predicate OkHeader(h: Header) {
    1 <= h.level <= 9 && h.crc < 0x1_0000_0000
  }

  predicate OkCoding(c: Coding) {
    && OkHeader(c.h) && 1 <= |c.unseq| <= 256 && 2 <= c.nGroups <= N_GROUPS
    && 1 <= |c.selector| <= MAX_SELECTORS
    && forall i :: 0 <= i < |c.selector| ==> 0 <= c.selector[i] < c.nGroups
  }

  predicate OkLens(c: Coding, lens: seq<seq<int>>) {
    |lens| <= c.nGroups && forall t :: 0 <= t < |lens| ==> |lens[t]| == |c.unseq| + 2 && ValidLens(lens[t])
  }

  predicate OkBlock(b: Block) {
    && OkCoding(b.c) && OkLens(b.c, b.lens) && |b.lens| == b.c.nGroups == |b.tables|
    && (forall t :: 0 <= t < |b.tables| ==> b.tables[t] == MakeTable(b.lens[t]))
    && -1 <= b.groupNo < |b.c.selector| && 0 <= b.groupPos < G_SIZE && (b.groupNo < 0 ==> b.groupPos == 0)
    && |b.mtfa| == 256 && (forall k :: 0 <= k < |b.c.unseq| ==> b.mtfa[k] < |b.c.unseq|)
    && -1 <= b.es && 0 <= b.n && |b.column| <= 100000 * b.c.h.level
  }

  // zvec holds zn bits, too many for any shorter code of the table.
  predicate Probing(lens: seq<int>, zn: int, zvec: int) {
    && ValidLens(lens) && MinLen(lens, |lens|) <= zn <= 21 && 0 <= zvec
    && (MinLen(lens, |lens|) < zn ==> zvec / 2 > Limit(lens, zn - 1))
  }

  /** The table index computed from a probe is in range: perm is never read outside the alphabet. */
  lemma ProbeIndex(lens: seq<int>, zn: int, zvec: int)
    requires Probing(lens, zn, zvec)
    ensures 1 <= zn && |MakeTable(lens).limit| == TABLE_ROWS && |MakeTable(lens).base| == TABLE_ROWS
    ensures |MakeTable(lens).perm| == |lens|
    ensures zn <= 20 ==> MakeTable(lens).limit[zn] == Limit(lens, zn) && MakeTable(lens).base[zn] == Base(lens, zn)
    ensures zn <= 20 && zvec <= Limit(lens, zn) ==> zvec - Base(lens, zn) < |lens|
    ensures forall k :: 0 <= k < |lens| ==> 0 <= MakeTable(lens).perm[k] < |lens|
  {
    hide First, Rank, Shorter, Perm;
    MinMaxBounds(lens, |lens|);
    FirstIsZero(lens, MinLen(lens, |lens|), MinLen(lens, |lens|));
    NoneBelow(lens, MinLen(lens, |lens|), |lens|);
    ShorterStep(lens, zn, |lens|);
    forall k | 0 <= k < |lens|
      ensures 0 <= Perm(lens)[k] < |lens|
    {
      PermSlot(lens, k);
    }
  }

  predicate OkSelecting(h: Header, unseq: seq<Byte>, nGroups: int, nSelectors: int, i: int, mtf: seq<int>, j: int) {
    && OkHeader(h) && 1 <= |unseq| <= 256 && 2 <= nGroups <= N_GROUPS
    && 0 <= i < nSelectors < 0x8000 && |mtf| == (if i < MAX_SELECTORS then i else MAX_SELECTORS)
    && 0 <= j < nGroups && forall k :: 0 <= k < |mtf| ==> 0 <= mtf[k] < nGroups
  }

  predicate Ok(p: Parser) {
    match p
    case Magic(k) => 0 <= k <= 3
    case BlockMagic(level, k) => 1 <= level <= 9 && 0 <= k <= 5
    case BlockCrc(level, k, crc) => 1 <= level <= 9 && 0 <= k <= 3 && crc < 0x1_0000_0000
    case RandBit(level, crc) => 1 <= level <= 9 && crc < 0x1_0000_0000
    case OrigPtr(h, k) => OkHeader(h) && 0 <= k <= 2
    case Mapping16(h, used16) => OkHeader(h) && |used16| < 16
    case Mapping256(h, used16, used) =>
      OkHeader(h) && |used16| == 16 && |used| < 256 && used16[|used| / 16]
    case GroupCount(h, unseq) => OkHeader(h) && 1 <= |unseq| <= 256
    case SelectorCount(h, unseq, nGroups) => OkHeader(h) && 1 <= |unseq| <= 256 && 2 <= nGroups <= N_GROUPS
    case SelectorBit(h, unseq, nGroups, nSelectors, i, mtf, j) => OkSelecting(h, unseq, nGroups, nSelectors, i, mtf, j)
    case FirstLen(c, lens) => OkCoding(c) && OkLens(c, lens) && |lens| < c.nGroups
    case LenStop(c, lens, cur, curr) => OkReading(c, lens, cur, curr)
    case LenStep(c, lens, cur, curr) => OkReading(c, lens, cur, curr)
    case SymbolStart(b, site) => OkBlock(b) && InGroup(b)
    case SymbolBit(b, site, zn, zvec) => OkBlock(b) && InGroup(b) && ProbingNext(CurrentLens(b), zn, zvec)
    case Output(h, column) => OkHeader(h) && h.origPtr < |column| <= 100000 * h.level
    case EndMagic(k) => 1 <= k <= 5
    case EndCrc(k, crc) => 0 <= k <= 3 && crc < 0x1_0000_0000
    case Done(crc) => crc < 0x1_0000_0000
    case Failed(error) => true
  }

  predicate OkReading(c: Coding, lens: seq<seq<int>>, cur: seq<int>, curr: int) {
    && OkCoding(c) && OkLens(c, lens) && |lens| < c.nGroups && |cur| < |c.unseq| + 2 && 1 <= curr <= 20
    && forall k :: 0 <= k < |cur| ==> 1 <= cur[k] <= 20
  }

  // About to read bit zn; the zn - 1 bits so far exceeded their limit.
  predicate ProbingNext(lens: seq<int>, zn: int, zvec: int) {
    && ValidLens(lens) && MinLen(lens, |lens|) < zn <= 21 && 0 <= zvec && zvec > Limit(lens, zn - 1)
  }

  predicate Terminal(p: Parser) {
    p.Output? || p.Done? || p.Failed?
  }

  // The number of bits asked for.
  function Need(p: Parser): (n: nat)
    requires Ok(p)
    ensures n <= 20 && (n == 0 <==> Terminal(p))
  {
    match p
    case RandBit(_, _) => 1
    case Mapping16(_, _) => 1
    case Mapping256(_, _, _) => 1
    case GroupCount(_, _) => 3
    case SelectorCount(_, _, _) => 15
    case SelectorBit(_, _, _, _, _, _, _) => 1
    case FirstLen(_, _) => 5
    case LenStop(_, _, _, _) => 1
    case LenStep(_, _, _, _) => 1
    case SymbolStart(b, _) =>
      MinMaxBounds(CurrentLens(b), |CurrentLens(b)|);
      CurrentTable(b).minLen
    case SymbolBit(_, _, _, _) => 1
    case Output(_, _) => 0
    case Done(_) => 0
    case Failed(_) => 0
    case _ => 8
  }

  function Next(p: Parser, v: nat): Parser
    requires Ok(p) && !Terminal(p)
  {
    match p
    case Magic(k) =>
      if k < 3 then (if v != MagicByte(k) then Failed(BadMagic) else Magic(k + 1))
      else if v < 0x31 || v > 0x39 then Failed(BadMagic) else BlockMagic(v - 0x30, 0)
    case BlockMagic(level, k) =>
      if k == 0 && v == EndMagicByte(0) then EndMagic(1)
      else if v != BlockMagicByte(k) then Failed(BadData)
      else if k < 5 then BlockMagic(level, k + 1) else BlockCrc(level, 0, 0)
    case BlockCrc(level, k, crc) =>
      if k < 3 then BlockCrc(level, k + 1, PushByte(crc, v)) else RandBit(level, PushByte(crc, v))
    case RandBit(level, crc) => OrigPtr(Header(level, crc, v == 1, 0), 0)
    case OrigPtr(h, k) =>
      var h' := h.(origPtr := PushByte(h.origPtr, v));
      if k < 2 then OrigPtr(h', k + 1)
      else if h'.origPtr > 10 + 100000 * h.level then Failed(BadData) else Mapping16(h', [])
    case Mapping16(h, used16) =>
      var u := used16 + [v == 1];
      if |u| < 16 then Mapping16(h, u) else FlagsRead(h, u, [])
    case Mapping256(h, used16, used) => FlagsRead(h, used16, used + [v == 1])
    case GroupCount(h, unseq) => if v < 2 || v > N_GROUPS then Failed(BadData) else SelectorCount(h, unseq, v)
    case SelectorCount(h, unseq, nGroups) =>
      if v < 1 then Failed(BadData) else SelectorBit(h, unseq, nGroups, v, 0, [], 0)
    case SelectorBit(h, unseq, nGroups, nSelectors, i, mtf, j) =>
      if v == 0 then SelectorRead(h, unseq, nGroups, nSelectors, i, mtf, j)
      else if j + 1 >= nGroups then Failed(BadData)
      else SelectorBit(h, unseq, nGroups, nSelectors, i, mtf, j + 1)
    case FirstLen(c, lens) => LenChecked(c, lens, [], v)
    case LenStop(c, lens, cur, curr) => if v == 0 then LenRead(c, lens, cur, curr) else LenStep(c, lens, cur, curr)
    case LenStep(c, lens, cur, curr) => LenChecked(c, lens, cur, if v == 0 then curr + 1 else curr - 1)
    case SymbolStart(b, site) =>
      MinMaxBounds(CurrentLens(b), |CurrentLens(b)|);
      Probe(b, site, CurrentTable(b).minLen, v)
    case SymbolBit(b, site, zn, zvec) => Probe(b, site, zn, 2 * zvec + v)
    case EndMagic(k) =>
      if v != EndMagicByte(k) then Failed(BadData) else if k < 5 then EndMagic(k + 1) else EndCrc(0, 0)
    case EndCrc(k, crc) => if k < 3 then EndCrc(k + 1, PushByte(crc, v)) else Done(PushByte(crc, v))
  }

  // ----- every step keeps the invariant

  lemma {:induction false} FlagsReadOk(h: Header, used16: seq<bool>, used: seq<bool>)
    requires OkHeader(h) && |used16| == 16 && |used| <= 256
    requires |used| % 16 == 0 || used16[|used| / 16]
    ensures Ok(FlagsRead(h, used16, used))
    decreases 256 - |used|
  {
    hide Unseq;
    if |used| == 256 {
      UnseqSize(used, 256);
    } else if |used| % 16 == 0 && !used16[|used| / 16] {
      FlagsReadOk(h, used16, used + seq(16, _ => false));
    }
  }

  lemma {:induction false} UnseqSize(used: seq<bool>, i: nat)
    requires i <= |used| <= 256
    ensures |Unseq(used, i)| <= i
    decreases i
  {
    if i != 0 { UnseqSize(used, i - 1); }
  }

  lemma {:induction false} UndoSelectorMtfOk(mtf: seq<int>, pos: seq<int>, n: int)
    requires |pos| == n && (forall k :: 0 <= k < n ==> 0 <= pos[k] < n)
    requires forall k :: 0 <= k < |mtf| ==> 0 <= mtf[k] < n
    ensures |UndoSelectorMtf(mtf, pos)| == |mtf|
    ensures forall k :: 0 <= k < |mtf| ==> 0 <= UndoSelectorMtf(mtf, pos)[k] < n
    decreases |mtf|
  {
    if mtf != [] {
      UndoSelectorMtfOk(mtf[1..], MoveToFront(pos, mtf[0]), n);
    }
  }

  lemma SelectorReadOk(h: Header, unseq: seq<Byte>, nGroups: int, nSelectors: int, i: int, mtf: seq<int>, j: int)
    requires OkSelecting(h, unseq, nGroups, nSelectors, i, mtf, j)
    ensures Ok(SelectorRead(h, unseq, nGroups, nSelectors, i, mtf, j))
  {
    hide UndoSelectorMtf;
    var mtf' := if i < MAX_SELECTORS then mtf + [j] else mtf;
    UndoSelectorMtfOk(mtf', Iota(nGroups), nGroups);
  }

  lemma NextSymbolOk(b: Block, site: Site)
    requires OkBlock(b)
    ensures Ok(NextSymbol(b, site))
  {
    hide ValidLens, MakeTable;
  }

  lemma LenReadOk(c: Coding, lens: seq<seq<int>>, cur: seq<int>, curr: int)
    requires OkReading(c, lens, cur, curr)
    ensures Ok(LenRead(c, lens, cur, curr))
  {
    hide MakeTable;
    var cur' := cur + [curr];
    var lens' := lens + [cur'];
    if |cur'| == |c.unseq| + 2 && |lens'| == c.nGroups {
      var b := Block(c, lens', seq(|lens'|, t requires 0 <= t < |lens'| => MakeTable(lens'[t])), -1, 0,
                     seq(256, i => if 0 <= i < 256 then i else 0), 0, 0, []);
      NextSymbolOk(b, AtStart);
    }
  }

  lemma RunDigitOk(b: Block, sym: int)
    requires OkBlock(b) && (sym == RUNA || sym == RUNB)
    ensures Ok(RunDigit(b, sym))
  {
    hide ValidLens, MakeTable;
    if b.n < RUN_GUARD {
      NextSymbolOk(b.(es := b.es + (if sym == RUNA then 1 else 2) * b.n, n := b.n * 2), InRun);
    }
  }

  lemma DispatchOk(b: Block, sym: int)
    requires OkBlock(b) && 0 <= sym < |b.c.unseq| + 2
    ensures Ok(Dispatch(b, sym))
  {
    hide ValidLens, MakeTable;
    if sym == RUNA || sym == RUNB {
      RunDigitOk(b.(es := -1, n := 1), sym);
    } else if sym <= |b.c.unseq| && |b.column| < 100000 * b.c.h.level {
      var nn := sym - 1;
      NextSymbolOk(b.(mtfa := MoveToFront(b.mtfa, nn), column := b.column + [b.c.unseq[b.mtfa[nn]]]), AfterSymbol);
    }
  }

  lemma SymbolOk(b: Block, site: Site, sym: int)
    requires OkBlock(b) && 0 <= sym < |b.c.unseq| + 2
    ensures Ok(Symbol(b, site, sym))
  {
    hide ValidLens, MakeTable, Dispatch, RunDigit;
    if site == InRun {
      if sym == RUNA || sym == RUNB {
        RunDigitOk(b, sym);
      } else {
        var es := b.es + 1;
        if |b.column| + es <= 100000 * b.c.h.level {
          DispatchOk(b.(column := b.column + Repeat(b.c.unseq[b.mtfa[0]], es)), sym);
        }
      }
    } else {
      DispatchOk(b, sym);
    }
  }

  lemma ProbeOk(b: Block, site: Site, zn: int, zvec: int)
    requires OkBlock(b) && InGroup(b) && Probing(CurrentLens(b), zn, zvec)
    ensures Ok(Probe(b, site, zn, zvec))
  {
    hide MakeTable, Limit, Base, MinLen, MaxLen, Symbol;
    ProbeIndex(CurrentLens(b), zn, zvec);
    var t := CurrentTable(b);
    if zn <= 20 && zvec <= t.limit[zn] {
      var k := zvec - t.base[zn];
      if 0 <= k < 258 { SymbolOk(b, site, t.perm[k]); }
    }
  }

  lemma StartProbing(b: Block, v: nat)
    requires OkBlock(b) && InGroup(b)
    ensures CurrentTable(b) == MakeTable(CurrentLens(b)) && ValidLens(CurrentLens(b))
    ensures CurrentTable(b).minLen == MinLen(CurrentLens(b), |CurrentLens(b)|)
    ensures 1 <= CurrentTable(b).minLen <= 20 && Probing(CurrentLens(b), CurrentTable(b).minLen, v)
  {
    hide MinLen, MaxLen, Limit, Base, Perm;
    MinMaxBounds(CurrentLens(b), |CurrentLens(b)|);
  }

  lemma NextOkSymbol(p: Parser, v: nat)
    requires Ok(p) && (p.SymbolStart? || p.SymbolBit?)
    ensures Ok(Next(p, v))
  {
    hide MakeTable, MinLen, MaxLen, Limit, Base, Probe, OkBlock, ValidLens;
    match p
    case SymbolStart(b, site) =>
      StartProbing(b, v);
      ProbeOk(b, site, CurrentTable(b).minLen, v);
    case SymbolBit(b, site, zn, zvec) => ProbeOk(b, site, zn, 2 * zvec + v);
  }

  lemma NextOkMapping(p: Parser, v: nat)
    requires Ok(p) && (p.Mapping16? || p.Mapping256?)
    ensures Ok(Next(p, v))
  {
    hide FlagsRead;
    match p
    case Mapping16(h, used16) =>
      if |used16| == 15 { FlagsReadOk(h, used16 + [v == 1], []); }
    case Mapping256(h, used16, used) => FlagsReadOk(h, used16, used + [v == 1]);
  }

  lemma NextOkTables(p: Parser, v: nat)
    requires Ok(p) && (p.GroupCount? || p.SelectorBit? || p.FirstLen? || p.LenStop? || p.LenStep?)
    ensures Ok(Next(p, v))
  {
    hide SelectorRead, LenRead, ValidLens;
    match p
    case SelectorBit(h, unseq, nGroups, nSelectors, i, mtf, j) =>
      if v == 0 { SelectorReadOk(h, unseq, nGroups, nSelectors, i, mtf, j); }
    case LenStop(c, lens, cur, curr) =>
      if v == 0 { LenReadOk(c, lens, cur, curr); }
    case _ =>
  }

  predicate AtHeader(p: Parser) {
    p.Magic? || p.BlockMagic? || p.BlockCrc? || p.RandBit? || p.OrigPtr? || p.SelectorCount? || p.EndMagic? || p.EndCrc?
  }

  lemma NextOkHeader(p: Parser, v: nat)
    requires Ok(p) && AtHeader(p) && v < Pow2(Need(p))
    ensures Ok(Next(p, v))
  {
    hide Pow2;
    Pow2Small();
  }

  /** Every step of the parser keeps its invariant; with the index checks inside Next this
      says that no input drives a table, selector or move-to-front access out of range. */
  lemma NextOk(p: Parser, v: nat)
    requires Ok(p) && !Terminal(p) && v < Pow2(Need(p))
    ensures Ok(Next(p, v))
  {
    hide Ok, Next, Need, Pow2;
    if p.SymbolStart? || p.SymbolBit? {
      NextOkSymbol(p, v);
    } else if p.Mapping16? || p.Mapping256? {
      NextOkMapping(p, v);
    } else if AtHeader(p) {
      NextOkHeader(p, v);
    } else {
      NextOkTables(p, v);
    }
  }

  lemma Pow2Small()
    ensures Pow2(1) == 2 && Pow2(3) == 8 && Pow2(5) == 32 && Pow2(8) == 256 && Pow2(15) == 0x8000
  {
    assert Pow2(8) == 256;
    assert Pow2(15) == 0x8000 by { Pow2Add(8, 7); }
  }

  // ----- running over bits

  /** Feed bits as long as the parser can use them; what is left over is shorter than its next request. */
  function RunBits(p: Parser, bits: seq<bool>): (r: (Parser, seq<bool>))
    requires Ok(p)
    decreases |bits|
  {
    if Terminal(p) || |bits| < Need(p) then (p, bits)
    else
      ToBitsVal(bits[..Need(p)]);
      NextOk(p, Val(bits[..Need(p)]));
      RunBits(Next(p, Val(bits[..Need(p)])), bits[Need(p)..])
  }

  lemma {:induction false} RunBitsEnds(p: Parser, bits: seq<bool>)
    requires Ok(p)
    ensures var (q, rest) := RunBits(p, bits); Ok(q) && |rest| <= |bits| && rest == bits[|bits| - |rest|..]
    ensures var (q, rest) := RunBits(p, bits); Terminal(q) || |rest| < Need(q)
    decreases |bits|
  {
    hide Ok, Next, Val;
    if !(Terminal(p) || |bits| < Need(p)) {
      ToBitsVal(bits[..Need(p)]);
      NextOk(p, Val(bits[..Need(p)]));
      RunBitsEnds(Next(p, Val(bits[..Need(p)])), bits[Need(p)..]);
    }
  }

  /** Chunking does not matter: feeding x and then y is feeding x + y. */
  lemma {:induction false} RunBitsSplit(p: Parser, x: seq<bool>, y: seq<bool>)
    requires Ok(p)
    ensures Ok(RunBits(p, x).0) && RunBits(p, x + y) == RunBits(RunBits(p, x).0, RunBits(p, x).1 + y)
    decreases |x|
  {
    hide Ok, Next, Val;
    RunBitsEnds(p, x);
    if !(Terminal(p) || |x| < Need(p)) {
      var n := Need(p);
      assert (x + y)[..n] == x[..n] && (x + y)[n..] == x[n..] + y;
      ToBitsVal(x[..n]);
      NextOk(p, Val(x[..n]));
      RunBitsSplit(Next(p, Val(x[..n])), x[n..], y);
    }
  }

  // ----- decoding one symbol bit by bit

  // One read of the parser, unfolded.
  lemma RunBitsStep(p: Parser, x: seq<bool>, rest: seq<bool>)
    requires Ok(p) && !Terminal(p) && |x| == Need(p)
    ensures Val(x) < Pow2(Need(p)) && Ok(Next(p, Val(x)))
    ensures RunBits(p, x + rest) == RunBits(Next(p, Val(x)), rest)
  {
    hide Ok, Next, Val, Need, Pow2;
    ToBitsVal(x);
    NextOk(p, Val(x));
    assert (x + rest)[..|x|] == x && (x + rest)[|x|..] == rest;
  }

  lemma ProbeUnfold(b: Block, site: Site, zn: int, zvec: int)
    requires OkBlock(b) && InGroup(b) && Probing(CurrentLens(b), zn, zvec) && zn <= 20
    ensures zvec > Limit(CurrentLens(b), zn) ==> Probe(b, site, zn, zvec) == SymbolBit(b, site, zn + 1, zvec)
    ensures var k := zvec - Base(CurrentLens(b), zn);
      zvec <= Limit(CurrentLens(b), zn) && 0 <= k < |CurrentLens(b)| ==>
        && |Perm(CurrentLens(b))| == |CurrentLens(b)| && 0 <= Perm(CurrentLens(b))[k] < |b.c.unseq| + 2
        && Probe(b, site, zn, zvec) == Symbol(b, site, Perm(CurrentLens(b))[k])
  {
    hide Limit, Base, MinLen, MaxLen, Perm, Symbol;
    ProbeIndex(CurrentLens(b), zn, zvec);
  }

  // The first zn bits of a code are a legitimate probe.
  lemma ProbingCode(lens: seq<int>, s: int, zn: int)
    requires ValidLens(lens) && 0 <= s < |lens| && MinLen(lens, |lens|) <= zn <= lens[s]
    ensures Probing(lens, zn, Shr(Code(lens, s), lens[s] - zn))
  {
    hide Code, Limit, Shr, MinLen;
    if MinLen(lens, |lens|) < zn {
      DecodesCode(lens, s, zn - 1);
      ShrPlus(Code(lens, s), lens[s] - zn, 1);
      ShrOne(Shr(Code(lens, s), lens[s] - zn));
    }
  }

  // Probing a proper prefix of a code asks for one more bit; the whole code names its symbol.
  lemma ProbeCode(b: Block, site: Site, s: int, zn: int)
    requires OkBlock(b) && InGroup(b) && 0 <= s < |CurrentLens(b)| && CurrentTable(b).minLen <= zn <= CurrentLens(b)[s]
    ensures var lens := CurrentLens(b); var zvec := Shr(Code(lens, s), lens[s] - zn);
      && Probing(lens, zn, zvec) && zn <= 20
      && Probe(b, site, zn, zvec) == (if zn == lens[s] then Symbol(b, site, s) else SymbolBit(b, site, zn + 1, zvec))
  {
    hide *;
    StartProbing(b, 0);
    var lens := CurrentLens(b);
    LenBound(lens, s);
    var zvec := Shr(Code(lens, s), lens[s] - zn);
    ProbingCode(lens, s, zn);
    ProbeUnfold(b, site, zn, zvec);
    DecodesCode(lens, s, zn);
    ShrNone(Code(lens, s));
  }

  lemma LenBound(lens: seq<int>, s: int)
    requires ValidLens(lens) && 0 <= s < |lens|
    ensures 1 <= lens[s] <= 20
  {
  }

  lemma ShrOne(a: nat)
    ensures Shr(a, 1) == a / 2
  {
    assert Shr(a, 1) == Shr(a / 2, 0);
  }

  // Reading one more bit resumes the probe.
  lemma BitStep(b: Block, site: Site, zn: int, zvec: int, v: nat, x: seq<bool>)
    requires Ok(SymbolBit(b, site, zn, zvec)) && v < 2
    ensures OkBlock(b) && InGroup(b) && Probing(CurrentLens(b), zn, 2 * zvec + v)
      && Ok(Probe(b, site, zn, 2 * zvec + v))
    ensures RunBits(SymbolBit(b, site, zn, zvec), [v == 1] + x) == RunBits(Probe(b, site, zn, 2 * zvec + v), x)
  {
    hide Probe, RunBits, OkBlock, ValidLens, MinLen, Limit, InGroup;
    RunBitsStep(SymbolBit(b, site, zn, zvec), [v == 1], x);
    ValOne(v);
    ProbeOk(b, site, zn, 2 * zvec + v);
  }

  // The first read of a symbol enters the probe.
  lemma StartStep(b: Block, site: Site, x: seq<bool>, rest: seq<bool>)
    requires Ok(SymbolStart(b, site)) && |x| == CurrentTable(b).minLen
    ensures OkBlock(b) && InGroup(b) && Probing(CurrentLens(b), CurrentTable(b).minLen, Val(x))
    ensures Ok(Probe(b, site, CurrentTable(b).minLen, Val(x)))
    ensures RunBits(SymbolStart(b, site), x + rest) == RunBits(Probe(b, site, CurrentTable(b).minLen, Val(x)), rest)
  {
    hide Probe, RunBits, OkBlock, ValidLens, MinLen, Limit, InGroup, Val, CurrentTable, CurrentLens, Probing;
    RunBitsStep(SymbolStart(b, site), x, rest);
    StartProbing(b, Val(x));
    ProbeOk(b, site, CurrentTable(b).minLen, Val(x));
  }

  // Symbol s can be decoded from b, and its code and the shortest length are as named.
  predicate Decoding(b: Block, s: int, code: nat, len: nat, n: nat) {
    && OkBlock(b) && InGroup(b) && 0 <= s < |CurrentLens(b)|
    && code == Code(CurrentLens(b), s) && len == CurrentLens(b)[s] && n == CurrentTable(b).minLen
  }

  // The state of decoding symbol s after zn bits of its code.
  function AfterBits(b: Block, site: Site, s: int, code: nat, len: nat, zn: nat): Parser
    requires zn <= len && OkBlock(b) && 0 <= s < |b.c.unseq| + 2
  {
    if zn == len then Symbol(b, site, s) else SymbolBit(b, site, zn + 1, Shr(code, len - zn))
  }

  lemma DecodingFacts(b: Block, site: Site, s: int, code: nat, len: nat, n: nat)
    requires Decoding(b, s, code, len, n)
    ensures OkBlock(b) && InGroup(b) && 0 <= s < |b.c.unseq| + 2 && n <= len && Ok(SymbolStart(b, site))
  {
    hide Code, MakeTable, MinLen;
    StartProbing(b, 0);
    ShortestFirst(CurrentLens(b), s);
  }

  lemma ProbeIs(b: Block, site: Site, s: int, code: nat, len: nat, n: nat, zn: nat)
    requires Decoding(b, s, code, len, n) && n <= zn <= len && OkBlock(b) && 0 <= s < |b.c.unseq| + 2
    ensures InGroup(b) && Probing(CurrentLens(b), zn, Shr(code, len - zn))
    ensures Probe(b, site, zn, Shr(code, len - zn)) == AfterBits(b, site, s, code, len, zn)
    ensures Ok(AfterBits(b, site, s, code, len, zn))
  {
    hide Code, Symbol, Shr, Probe, Ok, Probing;
    ProbeCode(b, site, s, zn);
    ProbeOk(b, site, zn, Shr(code, len - zn));
  }

  lemma ReadFirst(b: Block, site: Site, s: int, code: nat, len: nat, n: nat, rest: seq<bool>)
    requires Decoding(b, s, code, len, n) && code < Pow2(len)
    requires OkBlock(b) && 0 <= s < |b.c.unseq| + 2 && n <= len
    ensures Ok(SymbolStart(b, site)) && Ok(AfterBits(b, site, s, code, len, n))
    ensures RunBits(SymbolStart(b, site), ToBits(code, len) + rest)
      == RunBits(AfterBits(b, site, s, code, len, n), ToBits(code, len - n) + rest)
  {
    hide *;
    DecodingFacts(b, site, s, code, len, n);
    DecodingTable(b, s, code, len, n);
    var v := Shr(code, len - n);
    CutField(code, n, len - n, rest);
    ShrFits(code, n, len - n);
    ValOfWord(v, n);
    StartStep(b, site, ToBits(v, n), ToBits(code, len - n) + rest);
    ProbeIs(b, site, s, code, len, n, n);
  }

  lemma DecodingTable(b: Block, s: int, code: nat, len: nat, n: nat)
    requires Decoding(b, s, code, len, n)
    ensures InGroup(b) && n == CurrentTable(b).minLen
  {
  }

  lemma AfterOneMore(b: Block, site: Site, s: int, code: nat, len: nat, n: nat, zn: nat, rest: seq<bool>)
    requires Decoding(b, s, code, len, n) && n <= zn < len && OkBlock(b) && 0 <= s < |b.c.unseq| + 2
    ensures Ok(AfterBits(b, site, s, code, len, zn)) && Ok(AfterBits(b, site, s, code, len, zn + 1))
    ensures RunBits(AfterBits(b, site, s, code, len, zn), ToBits(code, len - zn) + rest)
      == RunBits(AfterBits(b, site, s, code, len, zn + 1), ToBits(code, len - zn - 1) + rest)
  {
    hide *;
    var m := len - zn;
    var v := Shr(code, m - 1) % 2;
    ProbeIs(b, site, s, code, len, n, zn);
    ProbeIs(b, site, s, code, len, n, zn + 1);
    AfterBitsShort(b, site, s, code, len, zn);
    BitOff(code, m, rest);
    BitStep(b, site, zn + 1, Shr(code, m), v, ToBits(code, m - 1) + rest);
    ShrPlus(code, m - 1, 1);
    ShrOne(Shr(code, m - 1));
  }

  lemma AfterBitsShort(b: Block, site: Site, s: int, code: nat, len: nat, zn: nat)
    requires zn <= len && OkBlock(b) && 0 <= s < |b.c.unseq| + 2
    ensures zn < len ==> AfterBits(b, site, s, code, len, zn) == SymbolBit(b, site, zn + 1, Shr(code, len - zn))
    ensures AfterBits(b, site, s, code, len, len) == Symbol(b, site, s)
  {
  }

  lemma {:induction false} ReadCodeFrom(b: Block, site: Site, s: int, code: nat, len: nat, n: nat, zn: nat,
                                        rest: seq<bool>)
    requires Decoding(b, s, code, len, n) && n <= zn <= len && OkBlock(b) && 0 <= s < |b.c.unseq| + 2
    ensures Ok(AfterBits(b, site, s, code, len, zn)) && Ok(AfterBits(b, site, s, code, len, len))
    ensures RunBits(AfterBits(b, site, s, code, len, zn), ToBits(code, len - zn) + rest)
      == RunBits(AfterBits(b, site, s, code, len, len), rest)
    decreases len - zn
  {
    hide *;
    ProbeIs(b, site, s, code, len, n, zn);
    if zn == len {
      NoBits(code, rest);
    } else {
      AfterOneMore(b, site, s, code, len, n, zn, rest);
      ReadCodeFrom(b, site, s, code, len, n, zn + 1, rest);
    }
  }

  lemma NoBits(v: nat, rest: seq<bool>)
    ensures ToBits(v, 0) + rest == rest
  {
  }

  // The top bit of an m-bit field.
  lemma BitOff(code: nat, m: nat, rest: seq<bool>)
    requires 0 < m
    ensures ToBits(code, m) + rest == [Shr(code, m - 1) % 2 == 1] + (ToBits(code, m - 1) + rest)
  {
    ToBitsSplit(code, 1, m - 1);
    assert ToBits(Shr(code, m - 1), 1) == [Shr(code, m - 1) % 2 == 1] by {
      assert ToBits(Shr(code, m - 1) / 2, 0) == [];
    }
  }

  lemma ValOne(v: nat)
    requires v < 2
    ensures Val([v == 1]) == v
  {
    assert [v == 1][..0] == [];
  }

  /** Bit-by-bit decoding of a symbol's code, whatever follows it, yields that symbol
      after exactly the code's bits. */
  lemma ReadCode(b: Block, site: Site, s: int, code: nat, len: nat, rest: seq<bool>)
    requires OkBlock(b) && InGroup(b) && 0 <= s < |CurrentLens(b)|
    requires code == Code(CurrentLens(b), s) && len == CurrentLens(b)[s] && code < Pow2(len)
    ensures Ok(SymbolStart(b, site)) && 0 <= s < |b.c.unseq| + 2 && Ok(Symbol(b, site, s))
    ensures RunBits(SymbolStart(b, site), ToBits(code, len) + rest) == RunBits(Symbol(b, site, s), rest)
  {
    StartProbing(b, 0);
    var n := CurrentTable(b).minLen;
    assert Decoding(b, s, code, len, n);
    hide *;
    DecodingFacts(b, site, s, code, len, n);
    ReadFirst(b, site, s, code, len, n, rest);
    ReadCodeFrom(b, site, s, code, len, n, n, rest);
    AfterBitsShort(b, site, s, code, len, len);
  }

  lemma ShortestFirst(lens: seq<int>, s: int)
    requires ValidLens(lens) && 0 <= s < |lens|
    ensures MinLen(lens, |lens|) <= lens[s]
  {
    MinMaxBounds(lens, |lens|);
  }

  // Cutting an (n + m)-bit field after n bits.
  lemma CutField(v: nat, n: nat, m: nat, rest: seq<bool>)
    ensures ToBits(v, n + m) + rest == ToBits(Shr(v, m), n) + (ToBits(v, m) + rest)
  {
    ToBitsSplit(v, n, m);
    hide ToBits;
  }

  // A parser that has stopped takes no bits.
  lemma StaysTerminal(q: Parser, bits: seq<bool>)
    requires Ok(q) && Terminal(q)
    ensures RunBits(q, bits) == (q, bits)
  {
  }

  // Too few bits for the next field.
  lemma Suspended(p: Parser, bits: seq<bool>)
    requires Ok(p) && (Terminal(p) || |bits| < Need(p))
    ensures RunBits(p, bits) == (p, bits)
  {
    hide Ok;
  }
}
