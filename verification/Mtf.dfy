/**
 Move-to-front coding of the sorted column with RUNA/RUNB runs (generateMTFValues),
 written over the sort array it is reading, and the proof that the decoder's
 inverse rebuilds the column.
 */
module Mtf {
  import opened Bits
  import opened Codes
  import opened Parser
  import opened Printer
  import opened Rotations

  // ----- the byte alphabet

  // The place of byte x among the bytes in use.
  function SeqIndex(used: seq<bool>, x: nat): nat
    requires x <= |used| <= 256
  {
    |Unseq(used, x)|
  }

  lemma {:induction false} UnseqPrefix(used: seq<bool>, x: nat, y: nat)
    requires x <= y <= |used| <= 256
    ensures SeqIndex(used, x) <= SeqIndex(used, y) <= SeqIndex(used, x) + (y - x)
    ensures Unseq(used, x) == Unseq(used, y)[..SeqIndex(used, x)]
    decreases y
  {
    if x < y {
      UnseqPrefix(used, x, y - 1);
    }
  }

  lemma SeqIndexInverts(used: seq<bool>, x: nat)
    requires |used| == 256 && x < 256 && used[x]
    ensures SeqIndex(used, x) < SeqIndex(used, 256) <= 256 && Unseq(used, 256)[SeqIndex(used, x)] == x
  {
    UnseqPrefix(used, x + 1, 256);
    UnseqPrefix(used, 0, 256);
    assert Unseq(used, x + 1)[SeqIndex(used, x)] == x;
  }

  // The column as places in the alphabet.
  function Ranks(used: seq<bool>, column: seq<Byte>): (r: seq<int>)
    requires |used| == 256
    ensures |r| == |column|
  {
    seq(|column|, i requires 0 <= i < |column| => SeqIndex(used, column[i]))
  }

  // makeMaps_e
  method MakeMaps(inUse: array<bool>, unseqToSeq: array<Byte>) returns (nInUse: nat)
    requires inUse.Length == 256 && unseqToSeq.Length == 256
    modifies unseqToSeq
    ensures nInUse == SeqIndex(inUse[..], 256) <= 256
    ensures forall x :: 0 <= x < 256 && inUse[x] ==> unseqToSeq[x] == SeqIndex(inUse[..], x)
  {
    hide Unseq;
    nInUse := 0;
    var i := 0;
    UnseqStep(inUse[..], 0);
    while i < 256
      invariant 0 <= i <= 256 && nInUse == SeqIndex(inUse[..], i) <= i
      invariant forall x :: 0 <= x < i && inUse[x] ==> unseqToSeq[x] == SeqIndex(inUse[..], x)
    {
      UnseqStep(inUse[..], i);
      if inUse[i] {
        unseqToSeq[i] := nInUse;
        nInUse := nInUse + 1;
      }
      i := i + 1;
    }
  }

  lemma UnseqStep(used: seq<bool>, i: nat)
    requires i < |used| <= 256
    ensures SeqIndex(used, 0) == 0 && SeqIndex(used, i + 1) == SeqIndex(used, i) + (if used[i] then 1 else 0)
  {
  }

  // ----- the symbols of a column

  // A run of z: bijective base 2, least significant digit first.
  function Digits(z: nat): (d: seq<int>)
    decreases z
  {
    if z == 0 then [] else [if (z - 1) % 2 == 1 then RUNB else RUNA] + Digits((z - 1) / 2)
  }

  predicate AllIn(ranks: seq<int>, yy: seq<int>) {
    forall i :: 0 <= i < |ranks| ==> ranks[i] in yy
  }

  function Encode(yy: seq<int>, z: nat, ranks: seq<int>, eob: int): seq<int>
    requires AllIn(ranks, yy)
    decreases |ranks|
  {
    if ranks == [] then Digits(z) + [eob]
    else if yy[0] == ranks[0] then Encode(yy, z + 1, ranks[1..], eob)
    else
      var j := IndexOf(yy, ranks[0]);
      MoveKeeps(yy, j);
      Digits(z) + ([j + 1] + Encode(MoveToFront(yy, j), 0, ranks[1..], eob))
  }

  /** The symbols for a column over the given alphabet. */
  function SymbolsOf(used: seq<bool>, column: seq<Byte>): seq<int>
    requires |used| == 256 && AllUsed(used, column)
  {
    RanksInAlphabet(used, column);
    Encode(Iota(SeqIndex(used, 256)), 0, Ranks(used, column), SeqIndex(used, 256) + 1)
  }

  predicate AllUsed(used: seq<bool>, column: seq<Byte>)
    requires |used| == 256
  {
    forall i :: 0 <= i < |column| ==> used[column[i]]
  }

  lemma RanksInAlphabet(used: seq<bool>, column: seq<Byte>)
    requires |used| == 256 && AllUsed(used, column)
    ensures AllIn(Ranks(used, column), Iota(SeqIndex(used, 256)))
  {
    hide Unseq;
    forall i | 0 <= i < |column|
      ensures Ranks(used, column)[i] in Iota(SeqIndex(used, 256))
    {
      SeqIndexInverts(used, column[i]);
      assert Iota(SeqIndex(used, 256))[SeqIndex(used, column[i])] == SeqIndex(used, column[i]);
    }
  }

  lemma {:induction false} DigitsShort(z: nat)
    ensures |Digits(z)| <= z && forall k :: 0 <= k < |Digits(z)| ==> Digits(z)[k] == RUNA || Digits(z)[k] == RUNB
    decreases z
  {
    if z != 0 {
      DigitsShort((z - 1) / 2);
    }
  }

  lemma DigitsUnfold(z: nat)
    requires 0 < z
    ensures Digits(z) == [if (z - 1) % 2 == 1 then RUNB else RUNA] + Digits((z - 1) / 2)
  {
  }

  lemma HalfOf(z: nat)
    requires 0 < z
    ensures z == 2 * ((z - 1) / 2) + (if (z - 1) % 2 == 1 then 2 else 1)
  {
  }

  lemma RunConstants()
    ensures RUNA == 0 && RUNB == 1 && RUN_GUARD == 2097152
  {
  }

  lemma EncodeUnfold(yy: seq<int>, z: nat, ranks: seq<int>, eob: int)
    requires AllIn(ranks, yy)
    ensures ranks == [] ==> Encode(yy, z, ranks, eob) == Digits(z) + [eob]
    ensures ranks != [] ==> AllIn(ranks[1..], yy) && yy != [] && ranks[0] in yy
    ensures ranks != [] && yy[0] == ranks[0] ==> Encode(yy, z, ranks, eob) == Encode(yy, z + 1, ranks[1..], eob)
    ensures ranks != [] && yy[0] != ranks[0] ==>
      var j := IndexOf(yy, ranks[0]);
      && 0 < j < |yy| && yy[j] == ranks[0] && AllIn(ranks[1..], MoveToFront(yy, j))
      && Encode(yy, z, ranks, eob) == Digits(z) + ([j + 1] + Encode(MoveToFront(yy, j), 0, ranks[1..], eob))
  {
    if ranks != [] {
      assert ranks[0] in yy;
      if yy[0] != ranks[0] { MoveKeeps(yy, IndexOf(yy, ranks[0])); }
    }
  }

  /** At most one symbol per byte of the column, and the end marker; all symbols in the alphabet. */
  lemma {:induction false} EncodeSize(yy: seq<int>, z: nat, ranks: seq<int>, eob: int)
    requires AllIn(ranks, yy) && eob == |yy| + 1
    ensures 1 <= |Encode(yy, z, ranks, eob)| <= z + |ranks| + 1
    ensures forall k :: 0 <= k < |Encode(yy, z, ranks, eob)| ==> 0 <= Encode(yy, z, ranks, eob)[k] <= eob
    decreases |ranks|
  {
    hide Encode, Digits;
    EncodeUnfold(yy, z, ranks, eob);
    DigitsShort(z);
    if ranks != [] {
      if yy[0] == ranks[0] {
        EncodeSize(yy, z + 1, ranks[1..], eob);
      } else {
        EncodeSize(MoveToFront(yy, IndexOf(yy, ranks[0])), 0, ranks[1..], eob);
      }
    }
  }

  // ----- decoding

  // p is at symbol m of its block, outside the digits of a run.
  ghost predicate Between(b: Block, lens: seq<seq<int>>, sel: seq<int>, m: nat) {
    AtSymbol(SymbolStart(b, AfterSymbol), lens, sel, m)
  }

  predicate SameText(a: Block, b: Block) {
    a.c == b.c && a.lens == b.lens && a.mtfa == b.mtfa
  }

  lemma BetweenFacts(b: Block, lens: seq<seq<int>>, sel: seq<int>, m: nat, site: Site)
    ensures Between(b, lens, sel, m) <==> AtSymbol(SymbolStart(b, site), lens, sel, m)
    ensures Between(b, lens, sel, m) ==>
      OkBlock(b) && Ok(SymbolStart(b, site)) && 1 <= |b.c.unseq| <= 256 && b.lens == lens && b.c.selector == sel
    ensures Between(b, lens, sel, m) ==> |b.mtfa| == 256 && forall k :: 0 <= k < |b.c.unseq| ==> b.mtfa[k] < |b.c.unseq|
  {
    hide ValidLens, MakeTable;
  }

  // Going on to the next symbol with some fields changed.
  lemma Proceed(b: Block, b': Block, site: Site, lens: seq<seq<int>>, sel: seq<int>, m: nat) returns (q: Block)
    requires Between(b, lens, sel, m) && OkBlock(b') && (m + 1) / 50 < |sel|
    requires b'.c == b.c && b'.lens == b.lens && b'.groupNo == b.groupNo && b'.groupPos == b.groupPos
    ensures NextSymbol(b', site) == SymbolStart(q, site) && Between(q, lens, sel, m + 1)
    ensures SameText(q, b') && q.column == b'.column && q.es == b'.es && q.n == b'.n
  {
    hide OkBlock, Ok;
    NextSymbolAt(b', site, m + 1);
    q := NextSymbol(b', site).b;
    BetweenFacts(q, lens, sel, m + 1, site);
  }

  lemma ConsumeStep(b: Block, site: Site, s: int, rest: seq<int>)
    requires OkBlock(b) && Ok(SymbolStart(b, site)) && 0 <= s < |b.c.unseq| + 2
    ensures Ok(Symbol(b, site, s)) && Consume(SymbolStart(b, site), [s] + rest) == Consume(Symbol(b, site, s), rest)
  {
    hide Symbol, Ok, OkBlock;
    SymbolOk(b, site, s);
    assert ([s] + rest)[1..] == rest;
  }

  lemma DigitOk(b: Block, d: int)
    requires OkBlock(b) && (d == RUNA || d == RUNB) && 0 <= b.n < 2097152
    ensures var b' := b.(es := b.es + (if d == RUNA then 1 else 2) * b.n, n := b.n * 2);
      OkBlock(b') && 0 <= d < |b.c.unseq| + 2 && Symbol(b, InRun, d) == NextSymbol(b', InRun)
  {
    hide ValidLens, MakeTable, NextSymbol;
  }

  lemma DigitRefused(b: Block, d: int)
    requires OkBlock(b) && (d == RUNA || d == RUNB) && 2097152 <= b.n
    ensures 0 <= d < |b.c.unseq| + 2 && Symbol(b, InRun, d) == Failed(BadData)
  {
    hide ValidLens, MakeTable;
  }

  lemma FirstDigit(b: Block, site: Site, d: int)
    requires OkBlock(b) && (d == RUNA || d == RUNB) && site != InRun
    ensures var b' := b.(es := if d == RUNA then 0 else 1, n := 2);
      OkBlock(b') && 0 <= d < |b.c.unseq| + 2 && Symbol(b, site, d) == NextSymbol(b', InRun)
  {
    hide ValidLens, MakeTable, NextSymbol;
  }

  // k digits of a run have been read.
  lemma {:induction false} DigitsOn(b: Block, ds: seq<int>, k: nat)
    requires OkBlock(b) && b.n == Pow2(k) && k <= 21 && Ok(NextSymbol(b, InRun)) && |ds| >= 22 - k
    requires forall i :: 0 <= i < |ds| ==> ds[i] == RUNA || ds[i] == RUNB
    ensures Consume(NextSymbol(b, InRun), ds).Failed?
    decreases 22 - k
  {
    hide OkBlock, Ok, Symbol, Pow2;
    var p := NextSymbol(b, InRun);
    Pow21(k);
    if p.Failed? {
      ConsumeFailed(p, ds);
    } else {
      NextKeeps(b, InRun);
      ConsumeStep(p.b, InRun, ds[0], ds[1..]);
      assert ds == [ds[0]] + ds[1..];
      if k == 21 {
        DigitRefused(p.b, ds[0]);
        ConsumeFailed(Failed(BadData), ds[1..]);
      } else {
        DigitOk(p.b, ds[0]);
        var b' := p.b.(es := p.b.es + (if ds[0] == RUNA then 1 else 2) * p.b.n, n := p.b.n * 2);
        DigitsOn(b', ds[1..], k + 1);
      }
    }
  }

  lemma Pow21(k: nat)
    requires k <= 21
    ensures Pow2(21) == 2097152 && (k < 21 ==> Pow2(k) < 2097152 && Pow2(k + 1) == Pow2(k) * 2)
  {
    assert Pow2(21) == 2097152 by { Pow2Add(11, 10); }
    Pow2Mono(k, 21);
    if k < 21 { Pow2Mono(k + 1, 21); }
  }

  lemma NextKeeps(b: Block, site: Site)
    requires OkBlock(b) && !NextSymbol(b, site).Failed?
    ensures var p := NextSymbol(b, site);
      p == SymbolStart(p.b, site) && OkBlock(p.b) && Ok(p) && p.b.n == b.n && p.b.es == b.es
  {
    NextSymbolOk(b, site);
    hide ValidLens, MakeTable;
  }

  lemma ConsumeFailed(p: Parser, syms: seq<int>)
    requires p.Failed?
    ensures Ok(p) && Consume(p, syms).Failed?
  {
  }

  /** A run of more than 21 digits is refused wherever it starts. */
  lemma LongRun(b: Block, site: Site, ds: seq<int>)
    requires OkBlock(b) && InGroup(b) && site != InRun && |ds| >= 22
    requires forall i :: 0 <= i < |ds| ==> ds[i] == RUNA || ds[i] == RUNB
    ensures Ok(SymbolStart(b, site)) && Consume(SymbolStart(b, site), ds).Failed?
  {
    hide OkBlock, Symbol, NextSymbol;
    FirstDigit(b, site, ds[0]);
    var b' := b.(es := if ds[0] == RUNA then 0 else 1, n := 2);
    assert Pow2(1) == 2;
    NextSymbolOk(b', InRun);
    ConsumeStep(b, site, ds[0], ds[1..]);
    assert ds == [ds[0]] + ds[1..];
    DigitsOn(b', ds[1..], 1);
  }

  lemma {:induction false} RunDigits(b: Block, lens: seq<seq<int>>, sel: seq<int>, m: nat, z: nat, total: int,
                                     rest: seq<int>)
    returns (q: Block)
    requires Between(b, lens, sel, m) && (m + |Digits(z)|) / 50 < |sel|
    requires Ok(SymbolStart(b, InRun)) && 1 <= b.n && b.n * z + b.es + 1 == total <= 900000 && -1 <= b.es
    ensures Between(q, lens, sel, m + |Digits(z)|) && SameText(q, b) && q.column == b.column && q.es + 1 == total
    ensures Ok(SymbolStart(q, InRun))
    ensures Consume(SymbolStart(b, InRun), Digits(z) + rest) == Consume(SymbolStart(q, InRun), rest)
    decreases z
  {
    hide *;
    BetweenFacts(b, lens, sel, m, InRun);
    if z == 0 {
      NoDigits(rest);
      ZeroProduct(b.n);
      q := b;
      assert SameText(q, b) by { SameRefl(b); }
    } else {
      DigitsUnfold(z);
      HalfOf(z);
      RunConstants();
      var d := if (z - 1) % 2 == 1 then RUNB else RUNA;
      var z' := (z - 1) / 2;
      RunProduct(b.n, z, z', if d == RUNB then 2 else 1);
      DigitOk(b, d);
      var b' := b.(es := b.es + (if d == RUNA then 1 else 2) * b.n, n := b.n * 2);
      var q1 := Proceed(b, b', InRun, lens, sel, m);
      BetweenFacts(q1, lens, sel, m + 1, InRun);
      SameTrans(q1, b', b);
      q := RunDigits(q1, lens, sel, m + 1, z', total, rest);
      SameTrans(q, q1, b);
      AppendAssoc(d, Digits(z'), rest);
      ConsumeStep(b, InRun, d, Digits(z') + rest);
    }
  }

  lemma SameRefl(b: Block)
    ensures SameText(b, b)
  {
  }

  lemma SameTrans(q: Block, a: Block, b: Block)
    ensures SameText(q, a) && a.c == b.c && a.lens == b.lens && a.mtfa == b.mtfa ==> SameText(q, b)
    ensures SameText(a, b) ==> a.c == b.c && a.lens == b.lens && a.mtfa == b.mtfa
    ensures SameText(q, a) && SameText(a, b) ==> SameText(q, b)
  {
  }

  lemma NoDigits(rest: seq<int>)
    ensures Digits(0) == [] && Digits(0) + rest == rest
  {
  }

  lemma ZeroProduct(n: int)
    ensures n * 0 == 0
  {
  }

  lemma AppendAssoc(d: int, a: seq<int>, rest: seq<int>)
    ensures [d] + a + rest == [d] + (a + rest)
  {
  }

  lemma RunProduct(n: int, z: nat, z': nat, w: int)
    requires 1 <= n && z == 2 * z' + w && (w == 1 || w == 2)
    ensures (n * 2) * z' + w * n == n * z && n <= n * z
  {
    assert n * (2 * z' + w) == n * (2 * z') + n * w;
    assert n * (2 * z') == (n * 2) * z';
  }

  // Entering a run is continuing one that has not begun.
  lemma EnterRun(b: Block, site: Site, lens: seq<seq<int>>, sel: seq<int>, m: nat, z: nat, rest: seq<int>)
    requires Between(b, lens, sel, m) && site != InRun && 0 < z
    ensures var r := b.(es := -1, n := 1);
      && Between(r, lens, sel, m) && Ok(SymbolStart(b, site)) && Ok(SymbolStart(r, InRun))
      && Consume(SymbolStart(b, site), Digits(z) + rest) == Consume(SymbolStart(r, InRun), Digits(z) + rest)
  {
    hide Digits, Consume, Ok, OkBlock, RunDigit;
    DigitsUnfold(z);
    var d := if (z - 1) % 2 == 1 then RUNB else RUNA;
    var more := Digits((z - 1) / 2) + rest;
    var r := b.(es := -1, n := 1);
    RunReset(b, site, lens, sel, m);
    AppendAssoc(d, Digits((z - 1) / 2), rest);
    ConsumeStep(b, site, d, more);
    ConsumeStep(r, InRun, d, more);
  }

  lemma RunReset(b: Block, site: Site, lens: seq<seq<int>>, sel: seq<int>, m: nat)
    requires Between(b, lens, sel, m)
    ensures var r := b.(es := -1, n := 1);
      Between(r, lens, sel, m) && Ok(SymbolStart(r, InRun)) && OkBlock(r) && OkBlock(b) && Ok(SymbolStart(b, site))
        && 1 <= |b.c.unseq|
  {
    hide ValidLens, MakeTable;
  }

  // The column with a pending run of the front byte.
  function WithRun(b: Block, z: nat): Block
    requires 1 <= |b.c.unseq| && 1 <= |b.mtfa| && b.mtfa[0] < |b.c.unseq|
  {
    b.(column := b.column + Repeat(b.c.unseq[b.mtfa[0]], z))
  }

  lemma RunEnds(q: Block, z: nat, s: int, lens: seq<seq<int>>, sel: seq<int>, m: nat)
    requires Between(q, lens, sel, m) && q.es + 1 == z && RUNB < s < |q.c.unseq| + 2
    requires |q.column| + z <= 100000 * q.c.h.level
    requires 1 <= |q.c.unseq| && 1 <= |q.mtfa| && q.mtfa[0] < |q.c.unseq|
    ensures OkBlock(q) && OkBlock(WithRun(q, z)) && Between(WithRun(q, z), lens, sel, m)
    ensures Symbol(q, InRun, s) == Dispatch(WithRun(q, z), s) && Ok(Dispatch(WithRun(q, z), s))
  {
    hide ValidLens, MakeTable, Dispatch;
    DispatchOk(WithRun(q, z), s);
  }

  // No run at all.
  lemma NoRun(b: Block, site: Site, s: int, lens: seq<seq<int>>, sel: seq<int>, m: nat)
    requires Between(b, lens, sel, m) && site != InRun && RUNB < s < |b.c.unseq| + 2
    requires 1 <= |b.c.unseq| && 1 <= |b.mtfa| && b.mtfa[0] < |b.c.unseq|
    ensures WithRun(b, 0) == b && OkBlock(b) && Ok(SymbolStart(b, site))
    ensures Symbol(b, site, s) == Dispatch(b, s) && Ok(Dispatch(b, s))
  {
    hide ValidLens, MakeTable, Dispatch;
    DispatchOk(b, s);
  }

  // The digits of a run and the symbol after it.
  lemma RunThenSymbol(b: Block, site: Site, lens: seq<seq<int>>, sel: seq<int>, m: nat, z: nat, s: int, rest: seq<int>)
    returns (q: Block)
    requires Between(b, lens, sel, m) && site != InRun && Ok(SymbolStart(b, site))
    requires (m + |Digits(z)|) / 50 < |sel| && RUNB < s < |b.c.unseq| + 2
    requires |b.column| + z <= 100000 * b.c.h.level <= 900000
    requires 1 <= |b.c.unseq| && 1 <= |b.mtfa| && b.mtfa[0] < |b.c.unseq|
    ensures Between(q, lens, sel, m + |Digits(z)|) && SameText(q, b) && OkBlock(q)
    ensures q.column == b.column + Repeat(b.c.unseq[b.mtfa[0]], z)
    ensures 0 <= s < |q.c.unseq| + 2 && Ok(Dispatch(q, s))
    ensures Consume(SymbolStart(b, site), Digits(z) + ([s] + rest)) == Consume(Dispatch(q, s), rest)
  {
    hide *;
    RunConstants();
    if z == 0 {
      q := b;
      NoDigits([s] + rest);
      NoRun(b, site, s, lens, sel, m);
      WithRunFacts(b, 0);
      SameRefl(b);
      ConsumeStep(b, site, s, rest);
    } else {
      EnterRun(b, site, lens, sel, m, z, [s] + rest);
      var r := b.(es := -1, n := 1);
      var q0 := RunDigits(r, lens, sel, m, z, z, [s] + rest);
      SameTrans(q0, r, b);
      SameTrans(q0, b, b);
      BetweenFacts(q0, lens, sel, m + |Digits(z)|, InRun);
      RunEnds(q0, z, s, lens, sel, m + |Digits(z)|);
      q := WithRun(q0, z);
      WithRunFacts(q0, z);
      SameTrans(q, q0, b);
      ConsumeStep(q0, InRun, s, rest);
    }
  }

  lemma WithRunFacts(b: Block, z: nat)
    requires 1 <= |b.c.unseq| && 1 <= |b.mtfa| && b.mtfa[0] < |b.c.unseq|
    ensures SameText(WithRun(b, z), b) && WithRun(b, z).column == b.column + Repeat(b.c.unseq[b.mtfa[0]], z)
  {
  }

  // The decoder's list, cut to the alphabet, is the encoder's.
  predicate Front(b: Block, yy: seq<int>) {
    |yy| == |b.c.unseq| <= |b.mtfa| && forall k :: 0 <= k < |yy| ==> yy[k] == b.mtfa[k]
  }

  predicate InAlphabet(ranks: seq<int>, n: int) {
    forall i :: 0 <= i < |ranks| ==> 0 <= ranks[i] < n
  }

  function Bytes(unseq: seq<Byte>, ranks: seq<int>): (s: seq<Byte>)
    requires InAlphabet(ranks, |unseq|)
    ensures |s| == |ranks|
  {
    seq(|ranks|, i requires 0 <= i < |ranks| => unseq[ranks[i]])
  }

  // What is decoded from here on: the run so far and the rest of the column.
  function Rebuilt(b: Block, z: nat, ranks: seq<int>): seq<Byte>
    requires 1 <= |b.c.unseq| && 1 <= |b.mtfa| && b.mtfa[0] < |b.c.unseq| && InAlphabet(ranks, |b.c.unseq|)
  {
    b.column + Repeat(b.c.unseq[b.mtfa[0]], z) + Bytes(b.c.unseq, ranks)
  }

  lemma RebuiltEnd(b: Block, q: Block, z: nat, ranks: seq<int>)
    requires 1 <= |b.c.unseq| && 1 <= |b.mtfa| && b.mtfa[0] < |b.c.unseq| && ranks == []
    requires q.column == b.column + Repeat(b.c.unseq[b.mtfa[0]], z)
    ensures InAlphabet(ranks, |b.c.unseq|) && q.column == Rebuilt(b, z, ranks) && |q.column| == |b.column| + z
  {
  }

  lemma RebuiltRun(b: Block, z: nat, yy: seq<int>, ranks: seq<int>)
    requires 1 <= |b.c.unseq| && 1 <= |b.mtfa| && b.mtfa[0] < |b.c.unseq| && InAlphabet(ranks, |b.c.unseq|)
    requires Front(b, yy) && ranks != [] && ranks[0] == yy[0]
    ensures InAlphabet(ranks[1..], |b.c.unseq|) && Rebuilt(b, z, ranks) == Rebuilt(b, z + 1, ranks[1..])
  {
    var x := b.c.unseq[b.mtfa[0]];
    assert Repeat(x, z + 1) == Repeat(x, z) + [x];
    assert Bytes(b.c.unseq, ranks) == [x] + Bytes(b.c.unseq, ranks[1..]);
  }

  // The block after symbol j + 1.
  function Moved(q: Block, j: nat): Block
    requires j < |q.mtfa| && q.mtfa[j] < |q.c.unseq|
  {
    q.(mtfa := MoveToFront(q.mtfa, j), column := q.column + [q.c.unseq[q.mtfa[j]]])
  }

  lemma DispatchMoves(q: Block, j: nat)
    requires OkBlock(q) && 0 < j < |q.c.unseq| && |q.column| < 100000 * q.c.h.level
    ensures j < |q.mtfa| && q.mtfa[j] < |q.c.unseq| && OkBlock(Moved(q, j))
    ensures var r := Moved(q, j); r.c == q.c && r.lens == q.lens && r.groupNo == q.groupNo && r.groupPos == q.groupPos
    ensures Dispatch(q, j + 1) == NextSymbol(Moved(q, j), AfterSymbol)
  {
    hide ValidLens, MakeTable, NextSymbol;
  }

  lemma DispatchEnds(q: Block, eob: int)
    requires OkBlock(q) && eob == |q.c.unseq| + 1 && q.c.h.origPtr < |q.column|
    ensures Dispatch(q, eob) == Output(q.c.h, q.column)
  {
    hide ValidLens, MakeTable;
  }

  lemma MovedFront(b: Block, q: Block, r: Block, yy: seq<int>, j: nat)
    requires Front(b, yy) && SameText(q, b) && j < |yy| && q.mtfa[j] < |q.c.unseq| && SameText(r, Moved(q, j))
    ensures Front(r, MoveToFront(yy, j)) && |MoveToFront(yy, j)| == |yy|
  {
  }

  lemma RebuiltMove(b: Block, q: Block, r: Block, z: nat, yy: seq<int>, j: nat, ranks: seq<int>)
    requires 1 <= |b.c.unseq| && 1 <= |b.mtfa| && b.mtfa[0] < |b.c.unseq| && InAlphabet(ranks, |b.c.unseq|)
    requires Front(b, yy) && SameText(q, b) && q.column == b.column + Repeat(b.c.unseq[b.mtfa[0]], z)
    requires ranks != [] && j < |yy| && yy[j] == ranks[0] && q.mtfa[j] < |q.c.unseq|
    requires r.column == Moved(q, j).column && SameText(r, Moved(q, j))
    ensures r.c == b.c && 1 <= |r.mtfa| && r.mtfa[0] < |r.c.unseq| && InAlphabet(ranks[1..], |b.c.unseq|)
    ensures Rebuilt(r, 0, ranks[1..]) == Rebuilt(b, z, ranks)
    ensures |r.column| == |b.column| + z + 1
  {
    assert Bytes(b.c.unseq, ranks) == [b.c.unseq[ranks[0]]] + Bytes(b.c.unseq, ranks[1..]);
    hide Bytes;
    assert Repeat(r.c.unseq[r.mtfa[0]], 0) == [];
  }

  lemma AlphabetFacts(b: Block, yy: seq<int>)
    requires OkBlock(b) && Front(b, yy)
    ensures 1 <= |b.c.unseq| <= |b.mtfa| && (forall k :: 0 <= k < |b.c.unseq| ==> b.mtfa[k] < |b.c.unseq|)
      && |yy| == |b.c.unseq|
    ensures 100000 * b.c.h.level <= 900000
  {
    hide ValidLens, MakeTable;
  }

  /** Decoding the symbols of a column gives the column back; no data check of the decoder fires. */
  lemma {:induction false} ConsumeEncode(b: Block, site: Site, yy: seq<int>, z: nat, ranks: seq<int>,
                                         lens: seq<seq<int>>, sel: seq<int>, m: nat)
    requires OkBlock(b) && Between(b, lens, sel, m) && Ok(SymbolStart(b, site)) && site != InRun && Front(b, yy)
    requires AllIn(ranks, yy) && InAlphabet(ranks, |b.c.unseq|)
    requires 1 <= |b.c.unseq| && 1 <= |b.mtfa| && b.mtfa[0] < |b.c.unseq|
    requires b.c.h.origPtr < |b.column| + z + |ranks| <= 100000 * b.c.h.level
    requires m + |Encode(yy, z, ranks, |yy| + 1)| <= 50 * |sel|
    ensures Consume(SymbolStart(b, site), Encode(yy, z, ranks, |yy| + 1)) == Output(b.c.h, Rebuilt(b, z, ranks))
    decreases |ranks|
  {
    hide *;
    RunConstants();
    AlphabetFacts(b, yy);
    EncodeUnfold(yy, z, ranks, |yy| + 1);
    if ranks == [] {
      var q := RunThenSymbol(b, site, lens, sel, m, z, |yy| + 1, []);
      assert [|yy| + 1] + [] == [|yy| + 1];
      SameTrans(q, b, b);
      SameFields(q, b);
      RebuiltEnd(b, q, z, ranks);
      DispatchEnds(q, |yy| + 1);
      ConsumeNothing(Output(q.c.h, q.column));
    } else if ranks[0] == yy[0] {
      RebuiltRun(b, z, yy, ranks);
      ConsumeEncode(b, site, yy, z + 1, ranks[1..], lens, sel, m);
    } else {
      var j := IndexOf(yy, ranks[0]);
      var q, r := ConsumeMove(b, site, yy, z, ranks, lens, sel, m, j);
      ConsumeEncode(r, AfterSymbol, MoveToFront(yy, j), 0, ranks[1..], lens, sel, m + |Digits(z)| + 1);
    }
  }

  lemma SameFields(q: Block, b: Block)
    requires SameText(q, b)
    ensures q.c == b.c && q.lens == b.lens && q.mtfa == b.mtfa
  {
  }

  lemma ConsumeNothing(p: Parser)
    requires Ok(p)
    ensures Consume(p, []) == p
  {
  }

  // A pending run and the symbol that ends it.
  lemma ConsumeMove(b: Block, site: Site, yy: seq<int>, z: nat, ranks: seq<int>, lens: seq<seq<int>>, sel: seq<int>,
                    m: nat, j: nat)
    returns (q: Block, r: Block)
    requires OkBlock(b) && Between(b, lens, sel, m) && Ok(SymbolStart(b, site)) && site != InRun && Front(b, yy)
    requires AllIn(ranks, yy) && InAlphabet(ranks, |b.c.unseq|) && ranks != []
    requires 1 <= |b.c.unseq| && 1 <= |b.mtfa| && b.mtfa[0] < |b.c.unseq|
    requires |b.column| + z + |ranks| <= 100000 * b.c.h.level
    requires 0 < j < |yy| && yy[j] == ranks[0] && AllIn(ranks[1..], MoveToFront(yy, j))
    requires Encode(yy, z, ranks, |yy| + 1) == Digits(z)
      + ([j + 1] + Encode(MoveToFront(yy, j), 0, ranks[1..], |yy| + 1))
    requires m + |Encode(yy, z, ranks, |yy| + 1)| <= 50 * |sel|
    ensures Front(r, MoveToFront(yy, j)) && |MoveToFront(yy, j)| == |yy| && OkBlock(r)
      && Ok(SymbolStart(r, AfterSymbol))
    ensures Between(r, lens, sel, m + |Digits(z)| + 1) && r.c == b.c
    ensures 1 <= |r.mtfa| && r.mtfa[0] < |r.c.unseq| && |r.column| == |b.column| + z + 1
    ensures InAlphabet(ranks[1..], |b.c.unseq|) && Rebuilt(r, 0, ranks[1..]) == Rebuilt(b, z, ranks)
    ensures m + |Digits(z)| + 1 + |Encode(MoveToFront(yy, j), 0, ranks[1..], |yy| + 1)| <= 50 * |sel|
    ensures Consume(SymbolStart(b, site), Encode(yy, z, ranks, |yy| + 1))
      == Consume(SymbolStart(r, AfterSymbol), Encode(MoveToFront(yy, j), 0, ranks[1..], |yy| + 1))
  {
    hide *;
    RunConstants();
    AlphabetFacts(b, yy);
    var rest := Encode(MoveToFront(yy, j), 0, ranks[1..], |yy| + 1);
    MoveSize(yy, j);
    MoreToCome(MoveToFront(yy, j), ranks[1..], |yy| + 1);
    var m' := m + |Digits(z)|;
    q := RunThenSymbol(b, site, lens, sel, m, z, j + 1, rest);
    SameFields(q, b);
    DispatchMoves(q, j);
    r := Proceed(q, Moved(q, j), AfterSymbol, lens, sel, m');
    BetweenFacts(r, lens, sel, m' + 1, AfterSymbol);
    MovedFront(b, q, r, yy, j);
    RebuiltMove(b, q, r, z, yy, j, ranks);
  }

  lemma MoveSize(yy: seq<int>, j: nat)
    requires j < |yy|
    ensures |MoveToFront(yy, j)| == |yy|
  {
  }

  lemma MoreToCome(yy: seq<int>, ranks: seq<int>, eob: int)
    requires AllIn(ranks, yy) && eob == |yy| + 1
    ensures 1 <= |Encode(yy, 0, ranks, eob)|
  {
    hide *;
    EncodeSize(yy, 0, ranks, eob);
  }

  // ----- a whole column

  // The symbols of x are those of the column.
  ghost predicate Encodes(level: int, x: BlockText, column: seq<Byte>) {
    && Printable(level, x) && AllUsed(x.used, column) && x.syms == SymbolsOf(x.used, column)
    && x.origPtr < |column| <= 100000 * level && |x.syms| <= 50 * |x.sel|
  }

  lemma StartFacts(level: int, x: BlockText)
    requires Printable(level, x)
    ensures var b := StartBlock(CodingOf(level, x), x.lens);
      && OkBlock(b) && b.c == CodingOf(level, x) && b.lens == x.lens && b.column == [] && b.groupNo == -1
        && b.groupPos == 0
      && b.c.h == HeaderOf(level, x) && b.c.h.level == level && b.c.h.origPtr == x.origPtr && b.c.selector == x.sel
      && b.c.unseq == Unseq(x.used, 256) && Front(b, Iota(|b.c.unseq|))
      && 1 <= |b.c.unseq| <= 256 && |b.mtfa| == 256 && b.mtfa[0] == 0
  {
    PrintableFacts(level, x);
    hide OkBlock, Unseq, Printable, MakeTable;
  }

  lemma ColumnRanks(used: seq<bool>, column: seq<Byte>)
    requires |used| == 256 && AllUsed(used, column)
    ensures InAlphabet(Ranks(used, column), |Unseq(used, 256)|)
    ensures Bytes(Unseq(used, 256), Ranks(used, column)) == column
  {
    hide Unseq;
    forall i | 0 <= i < |column|
      ensures 0 <= Ranks(used, column)[i] < |Unseq(used, 256)| && Unseq(used, 256)[Ranks(used, column)[i]] == column[i]
    {
      SeqIndexInverts(used, column[i]);
    }
  }

  lemma SymbolsUnfold(used: seq<bool>, column: seq<Byte>)
    requires |used| == 256 && AllUsed(used, column)
    ensures AllIn(Ranks(used, column), Iota(|Unseq(used, 256)|))
    ensures SymbolsOf(used, column) ==
      Encode(Iota(|Unseq(used, 256)|), 0, Ranks(used, column), |Iota(|Unseq(used, 256)|)| + 1)
  {
    hide Unseq, Encode;
    RanksInAlphabet(used, column);
  }

  lemma RebuiltWhole(b: Block, used: seq<bool>, column: seq<Byte>)
    requires |used| == 256 && AllUsed(used, column) && b.column == [] && b.c.unseq == Unseq(used, 256)
    requires 1 <= |b.c.unseq| && 1 <= |b.mtfa| && b.mtfa[0] < |b.c.unseq|
    ensures InAlphabet(Ranks(used, column), |b.c.unseq|) && Rebuilt(b, 0, Ranks(used, column)) == column
  {
    ColumnRanks(used, column);
    hide Unseq, Ranks, Bytes;
    assert Repeat(b.c.unseq[b.mtfa[0]], 0) == [];
  }

  /** Move-to-front, run digits and their inverses cancel: the decoder rebuilds every column of a legal size. */
  lemma SymbolsDecode(level: int, x: BlockText, column: seq<Byte>)
    requires Encodes(level, x, column)
    ensures DecodesTo(level, x, column)
  {
    hide *;
    EncodesBound(level, x, column);
    var b := StartBlock(CodingOf(level, x), x.lens);
    StartFacts(level, x);
    PrintableFacts(level, x);
    SymbolsUnfold(x.used, column);
    RebuiltWhole(b, x.used, column);
    RunConstants();
    FirstSymbol(level, x);
    var q := FirstBlock(b, x);
    SameFields(q, b);
    RebuiltSame(b, q, Ranks(x.used, column));
    ConsumeEncode(q, AtStart, Iota(|b.c.unseq|), 0, Ranks(x.used, column), x.lens, x.sel, 0);
    DecodesToIs(level, x, column);
  }

  lemma EncodesBound(level: int, x: BlockText, column: seq<Byte>)
    requires Encodes(level, x, column)
    ensures Printable(level, x) && |x.used| == 256 && AllUsed(x.used, column) && x.syms == SymbolsOf(x.used, column)
    ensures x.origPtr < |column| <= 100000 * level && |x.syms| <= 50 * |x.sel| && 1 <= |x.sel|
  {
    hide Codable, SymbolsOf;
  }

  lemma FirstSymbol(level: int, x: BlockText)
    requires Printable(level, x)
    ensures OkBlock(StartBlock(CodingOf(level, x), x.lens))
    ensures AtSymbol(NextSymbol(StartBlock(CodingOf(level, x), x.lens), AtStart), x.lens, x.sel, 0)
  {
    hide *;
    PrintableFacts(level, x);
    StartAt(level, x);
  }

  lemma FirstBlock(b: Block, x: BlockText) returns (q: Block)
    requires OkBlock(b) && AtSymbol(NextSymbol(b, AtStart), x.lens, x.sel, 0) && b.groupPos == 0 && b.column == []
    requires Front(b, Iota(|b.c.unseq|))
    ensures NextSymbol(b, AtStart) == SymbolStart(q, AtStart) && Between(q, x.lens, x.sel, 0) && OkBlock(q)
      && Ok(SymbolStart(q, AtStart))
    ensures SameText(q, b) && q.column == [] && Front(q, Iota(|b.c.unseq|))
  {
    hide OkBlock, Ok;
    q := NextSymbol(b, AtStart).b;
    BetweenFacts(q, x.lens, x.sel, 0, AtStart);
  }

  lemma RebuiltSame(b: Block, q: Block, ranks: seq<int>)
    requires 1 <= |b.c.unseq| && 1 <= |b.mtfa| && b.mtfa[0] < |b.c.unseq| && InAlphabet(ranks, |b.c.unseq|)
    requires q.c == b.c && q.mtfa == b.mtfa && q.column == b.column
    ensures Rebuilt(q, 0, ranks) == Rebuilt(b, 0, ranks)
  {
  }

  lemma DecodesToIs(level: int, x: BlockText, column: seq<Byte>)
    requires Printable(level, x) && Ok(NextSymbol(StartBlock(CodingOf(level, x), x.lens), AtStart))
    requires Consume(NextSymbol(StartBlock(CodingOf(level, x), x.lens), AtStart), x.syms) ==
      Output(HeaderOf(level, x), column)
    ensures DecodesTo(level, x, column)
  {
    hide Printable, Consume, Ok, NextSymbol;
  }

  // ----- the encoder in place

  // 32-bit word i of a memory seen as 16-bit halves.
  function Word(s: seq<UInt16>, i: nat): nat
    requires 2 * i + 1 < |s|
  {
    s[2 * i] as int + 0x1_0000 * (s[2 * i + 1] as int)
  }

  function CountOf(s: seq<int>, v: int): nat
    decreases |s|
  {
    if s == [] then 0 else CountOf(s[..|s| - 1], v) + (if s[|s| - 1] == v then 1 else 0)
  }

  // freq[v] counts symbol v.
  predicate Tallies(freq: seq<int>, syms: seq<int>, eob: int) {
    0 <= eob < |freq| && forall v :: 0 <= v <= eob ==> freq[v] == CountOf(syms, v)
  }

  lemma TallyOne(freq: seq<int>, syms: seq<int>, eob: int, v: int)
    requires Tallies(freq, syms, eob) && 0 <= v <= eob
    ensures Tallies(freq[v := freq[v] + 1], syms + [v], eob)
  {
    assert (syms + [v])[..|syms|] == syms;
  }

  // mtfv[wr] = v; wr++; mtfFreq[v]++;
  method Put(half: array<UInt16>, freq: array<int>, wr: nat, v: int, ghost eob: int) returns (wr': nat)
    requires wr < half.Length && 0 <= v <= eob < 0x1_0000 && half != freq as object
    requires Tallies(freq[..], half[..wr], eob)
    modifies half, freq
    ensures wr' == wr + 1 && half[..] == old(half[..])[wr := v]
    ensures Tallies(freq[..], half[..wr'], eob)
  {
    hide CountOf;
    TallyOne(freq[..], half[..wr], eob, v);
    half[wr] := v;
    wr' := wr + 1;
    freq[v] := freq[v] + 1;
    assert half[..wr'] == old(half[..wr]) + [v];
    assert freq[..] == old(freq[..])[v := old(freq[v]) + 1];
  }

  // Write the digits of a pending run.
  method PutRun(half: array<UInt16>, freq: array<int>, wr: nat, run: nat, ghost eob: int) returns (wr': nat)
    requires 0 < run && wr + run <= half.Length && 1 <= eob < 0x1_0000 && half != freq as object
    requires Tallies(freq[..], half[..wr], eob)
    modifies half, freq
    ensures wr' == wr + |Digits(run)| <= wr + run
    ensures half[..wr'] == old(half[..wr]) + Digits(run) && half[wr'..] == old(half[wr'..])
    ensures Tallies(freq[..], half[..wr'], eob)
  {
    hide Digits, Tallies;
    DigitsShort(run);
    wr' := wr;
    var zPend := run - 1;
    ghost var done := [];
    while true
      invariant 0 <= zPend && wr <= wr' && wr' == wr + |done| && done + Digits(zPend + 1) == Digits(run)
      invariant half[..wr'] == old(half[..wr]) + done && half[wr'..] == old(half[wr'..])
      invariant Tallies(freq[..], half[..wr'], eob)
      decreases zPend
    {
      DigitsUnfold(zPend + 1);
      ghost var d := if zPend % 2 == 1 then RUNB else RUNA;
      RunShifts(done, d, Digits(zPend / 2), Digits(run));
      ghost var before := half[..];
      if zPend % 2 == 1 {
        wr' := Put(half, freq, wr', RUNB, eob);
      } else {
        wr' := Put(half, freq, wr', RUNA, eob);
      }
      AfterPut(before, half[..], wr' - 1, d);
      done := done + [d];
      if zPend < 2 {
        SmallRun(zPend);
        break;
      }
      RunHalves(zPend);
      zPend := (zPend - 2) / 2;
    }
  }

  lemma RunShifts(done: seq<int>, d: int, more: seq<int>, all: seq<int>)
    requires done + ([d] + more) == all
    ensures (done + [d]) + more == all && |done| + 1 <= |all| && (more == [] ==> done + [d] == all)
  {
    assert (done + [d]) + more == done + ([d] + more);
  }

  lemma AfterPut(s: seq<UInt16>, t: seq<UInt16>, wr: nat, v: UInt16)
    requires wr < |s| && t == s[wr := v]
    ensures t[..wr + 1] == s[..wr] + [v] && t[wr + 1..] == s[wr + 1..] == s[wr..][1..]
  {
  }

  lemma SmallRun(z: nat)
    requires z < 2
    ensures Digits(z / 2) == []
  {
  }

  lemma RunHalves(z: nat)
    requires 2 <= z
    ensures (z - 2) / 2 + 1 == z / 2
  {
  }

  // Find x in the list and move it to the front, shifting as it goes.
  method ShiftToFront(yy: array<Byte>, x: Byte, n: nat) returns (j: nat)
    requires n <= yy.Length && x in yy[..n] && yy[0] != x
    modifies yy
    ensures old(x in yy[..n]) && j == IndexOf<int>(old(yy[..n]), x) && 0 < j < n
    ensures yy[..n] == MoveToFront<int>(old(yy[..n]), j) && yy[n..] == old(yy[n..])
  {
    hide IndexOf, MoveToFront, SlidUp;
    ghost var s := yy[..];
    ghost var at := IndexOf<int>(s[..n], x);
    assert s[..n] == yy[..n] && s[..n][at] == s[at] == x && x !in s[..n][..at];
    assert 0 < at;
    SlidStep(s, 0);
    SlidStart(s);
    var rtmp := yy[1];
    yy[1] := yy[0];
    j := 1;
    while x != rtmp
      invariant 1 <= j <= at && rtmp == s[j]
      invariant yy[..] == SlidUp(s, j)
      decreases at - j
    {
      NotBefore(s[..n], x, at, j);
      SlidStep(s, j);
      j := j + 1;
      var rtmp2 := rtmp;
      rtmp := yy[j];
      yy[j] := rtmp2;
    }
    NotBefore(s[..n], x, at, j);
    yy[0] := rtmp;
    SlidPartMoved(s, yy[..], j, n);
  }

  lemma SlidStart(s: seq<Byte>)
    requires 0 < |s|
    ensures SlidUp(s, 0) == s
  {
  }

  lemma SlidPartMoved(s: seq<Byte>, t: seq<Byte>, j: nat, n: nat)
    requires 1 <= j < n <= |s| && t == SlidUp(s, j)[0 := s[j]]
    ensures t[..n] == MoveToFront<int>(s[..n], j) && t[n..] == s[n..]
  {
    hide SlidUp;
    SlidIsMoved(s, j);
    assert s[..n][..j] == s[..j] && s[..n][j + 1..] + s[n..] == s[j + 1..];
    assert MoveToFront<int>(s, j) == MoveToFront<int>(s[..n], j) + s[n..];
  }

  // The sort array as the 32-bit view of the memory.
  ghost predicate HoldsPtr(s: seq<UInt16>, ptr: seq<int>) {
    2 * |ptr| <= |s| && forall i {:trigger ptr[i]} :: 0 <= i < |ptr| ==> Word(s, i) == ptr[i]
  }

  // The unread part of the sort array is intact.
  lemma StillHolds(was: seq<UInt16>, s: seq<UInt16>, ptr: seq<int>, i: nat)
    requires HoldsPtr(was, ptr) && i < |ptr| && |s| == |was| && s[2 * i..] == was[2 * i..]
    ensures Word(s, i) == ptr[i] && s[2 * (i + 1)..] == was[2 * (i + 1)..]
  {
    assert s[2 * i] == s[2 * i..][0] && s[2 * i + 1] == s[2 * i..][1];
    assert was[2 * i] == was[2 * i..][0] && was[2 * i + 1] == was[2 * i..][1];
    assert s[2 * (i + 1)..] == s[2 * i..][2..] && was[2 * (i + 1)..] == was[2 * i..][2..];
  }

  // Writing below position i leaves what starts at 2 * (i + 1) alone.
  lemma TailKept(s: seq<UInt16>, t: seq<UInt16>, wr: nat, a: nat)
    requires wr <= a <= |s| == |t| && s[wr..] == t[wr..]
    ensures s[a..] == t[a..]
  {
    assert s[a..] == s[wr..][a - wr..] && t[a..] == t[wr..][a - wr..];
  }

  // The state of the main loop before byte i: what is written and what is to come.
  ghost predicate Writing(s: seq<UInt16>, wr: nat, yy: seq<int>, zPend: nat, ranks: seq<int>, eob: int, all: seq<int>) {
    wr <= |s| && AllIn(ranks, yy) && s[..wr] + Encode(yy, zPend, ranks, eob) == all
  }

  lemma WriteRun(s: seq<UInt16>, wr: nat, yy: seq<int>, zPend: nat, ranks: seq<int>, eob: int, all: seq<int>)
    requires Writing(s, wr, yy, zPend, ranks, eob, all) && ranks != [] && yy != [] && ranks[0] == yy[0]
    ensures Writing(s, wr, yy, zPend + 1, ranks[1..], eob, all)
  {
    EncodeUnfold(yy, zPend, ranks, eob);
    hide Encode;
  }

  lemma WriteSymbol(s: seq<UInt16>, wr: nat, t: seq<UInt16>, wr': nat, yy: seq<int>, zPend: nat, ranks: seq<int>,
                    eob: int, all: seq<int>, j: nat)
    requires Writing(s, wr, yy, zPend, ranks, eob, all) && ranks != [] && yy != [] && ranks[0] != yy[0]
    requires ranks[0] in yy && j == IndexOf(yy, ranks[0]) && wr' <= |t| && t[..wr'] == s[..wr] + Digits(zPend) + [j + 1]
    ensures Writing(t, wr', MoveToFront(yy, j), 0, ranks[1..], eob, all)
  {
    hide Encode, Digits, MoveToFront, IndexOf;
    EncodeUnfold(yy, zPend, ranks, eob);
    Regroup(s[..wr], Digits(zPend), j + 1, Encode(MoveToFront(yy, j), 0, ranks[1..], eob));
  }

  lemma Regroup(a: seq<int>, b: seq<int>, x: int, c: seq<int>)
    ensures a + (b + ([x] + c)) == a + b + [x] + c
  {
  }

  lemma WriteEnd(s: seq<UInt16>, wr: nat, t: seq<UInt16>, wr': nat, yy: seq<int>, zPend: nat, eob: int, all: seq<int>)
    requires Writing(s, wr, yy, zPend, [], eob, all) && wr' <= |t| && t[..wr'] == s[..wr] + Digits(zPend) + [eob]
    ensures t[..wr'] == all
  {
    assert s[..wr] + (Digits(zPend) + [eob]) == s[..wr] + Digits(zPend) + [eob];
  }

  lemma StartWriting(s: seq<UInt16>, used: seq<bool>, column: seq<Byte>, yy: seq<int>)
    requires |used| == 256 && AllUsed(used, column) && yy == Iota(SeqIndex(used, 256))
    ensures Writing(s, 0, yy, 0, Ranks(used, column), SeqIndex(used, 256) + 1, SymbolsOf(used, column))
  {
    hide Encode, Unseq;
    RanksInAlphabet(used, column);
    assert s[..0] == [];
  }

  lemma NextRank(ranks: seq<int>, i: nat, yy: seq<int>)
    requires i < |ranks| && AllIn(ranks[i..], yy)
    ensures ranks[i..] != [] && ranks[i..][0] == ranks[i] && ranks[i] in yy && ranks[i..][1..] == ranks[i + 1..]
      && yy != []
  {
    assert ranks[i..][0] in yy;
  }

  // The number of alphabet places, and that each byte of the column has its own.
  lemma ColumnFacts(used: seq<bool>, column: seq<Byte>, i: nat)
    requires |used| == 256 && AllUsed(used, column) && i < |column|
    ensures used[column[i]] && Ranks(used, column)[i] == SeqIndex(used, column[i]) < 256
  {
    hide Unseq;
    SeqIndexInverts(used, column[i]);
  }

  method ClearFreq(freq: array<int>, eob: int, ghost syms: seq<int>)
    requires 0 <= eob < freq.Length && syms == []
    modifies freq
    ensures Tallies(freq[..], syms, eob)
  {
    var i := 0;
    while i <= eob
      invariant 0 <= i <= eob + 1
      invariant forall v :: 0 <= v < i ==> freq[v] == 0
    {
      freq[i] := 0;
      i := i + 1;
    }
  }

  method FillList(yy: array<Byte>, n: nat)
    requires n <= 256 && yy.Length == 272
    modifies yy
    ensures yy[..n] == Iota(n)
  {
    var i := 0;
    while i < n
      invariant 0 <= i <= n
      invariant forall k :: 0 <= k < i ==> yy[k] == k
    {
      yy[i] := i;
      i := i + 1;
    }
    while i < 272
      invariant n <= i <= 272
      invariant forall k :: 0 <= k < n ==> yy[k] == k
    {
      yy[i] := 0xff;
      i := i + 1;
    }
  }

  lemma HoldsFacts(s: seq<UInt16>, ptr: seq<int>)
    requires HoldsPtr(s, ptr)
    ensures 2 * |ptr| <= |s|
  {
  }

  lemma PtrFacts(was: seq<UInt16>, s: seq<UInt16>, ptr: seq<int>, i: nat)
    requires HoldsPtr(was, ptr) && i < |ptr| && |s| == |was| && s[2 * i..] == was[2 * i..]
    ensures 2 * i + 1 < |s| && Word(s, i) == ptr[i] && s[2 * (i + 1)..] == was[2 * (i + 1)..]
  {
    hide Word;
    StillHolds(was, s, ptr, i);
  }

  lemma ColumnAt(b: seq<Byte>, ptr: seq<int>, column: seq<Byte>, used: seq<bool>, i: nat, j: int)
    requires |used| == 256 && |ptr| == |b| && i < |b| && forall i :: 0 <= i < |b| ==> 0 <= ptr[i] < |b|
    requires column == LastColumn(b, ptr) && AllUsed(used, column)
    requires j == if ptr[i] - 1 < 0 then ptr[i] - 1 + |b| else ptr[i] - 1
    ensures |column| == |b| && 0 <= j < |b| && used[b[j]] && i < |Ranks(used, column)|
      && Ranks(used, column)[i] == SeqIndex(used, b[j])
  {
    hide Ranks, SeqIndex;
    ColumnFacts(used, column, i);
  }

  lemma WritingFacts(s: seq<UInt16>, wr: nat, yy: seq<int>, zPend: nat, ranks: seq<int>, eob: int, all: seq<int>)
    requires Writing(s, wr, yy, zPend, ranks, eob, all)
    ensures wr <= |s| && AllIn(ranks, yy)
  {
  }

  // The pending run, then the place of the byte, which moves to the front.
  method PutMove(half: array<UInt16>, freq: array<int>, yy: array<Byte>, wr: nat, zPend: nat, lli: Byte, n: nat,
                 ghost i: nat, ghost ranks: seq<int>, ghost all: seq<int>)
    returns (wr': nat)
    requires 1 <= n <= 256 && yy.Length == 272 && freq.Length == 258 && half != freq as object
    requires wr + zPend <= i && 2 * i + 1 < half.Length
    requires Writing(half[..], wr, yy[..n], zPend, ranks, n + 1, all) && Tallies(freq[..], half[..wr], n + 1)
    requires ranks != [] && ranks[0] == lli && lli in yy[..n] && yy[0] != lli
    modifies half, freq, yy
    ensures wr' <= i + 1 && half[2 * (i + 1)..] == old(half[2 * (i + 1)..])
    ensures Writing(half[..], wr', yy[..n], 0, ranks[1..], n + 1, all) && Tallies(freq[..], half[..wr'], n + 1)
  {
    hide *;
    ghost var s0, y0 := half[..], yy[..n];
    NoDigits([]);
    wr' := wr;
    if zPend > 0 {
      wr' := PutRun(half, freq, wr, zPend, n + 1);
      DigitsShort(zPend);
      TailKept(s0[wr'..], half[wr'..], 0, 0);
    }
    ghost var s1 := half[..];
    assert s1[..wr'] == s0[..wr] + Digits(zPend) && s1[wr'..] == s0[wr'..] && wr' <= i;
    var j := ShiftToFront(yy, lli, n);
    ghost var w1 := wr';
    wr' := Put(half, freq, wr', j + 1, n + 1);
    AfterPut(s1, half[..], w1, j + 1);
    TailAgain(s0, s1, half[..], w1, 2 * (i + 1));
    WriteSymbol(s0, wr, half[..], wr', y0, zPend, ranks, n + 1, all, j);
  }

  lemma TailAgain(s0: seq<UInt16>, s1: seq<UInt16>, t: seq<UInt16>, w: nat, a: nat)
    requires w < a <= |s0| == |s1| == |t| && s1[w..] == s0[w..] && t[w + 1..] == s1[w + 1..]
    ensures t[a..] == s0[a..]
  {
    TailKept(s1, s0, w, a);
    TailKept(t, s1, w + 1, a);
  }

  // The last run and the end marker.
  method PutEnd(half: array<UInt16>, freq: array<int>, ghost yy: seq<int>, wr: nat, zPend: nat, eob: int,
                ghost all: seq<int>)
    returns (nMTF: nat)
    requires 1 <= eob <= 257 && freq.Length == 258 && half != freq as object && wr + zPend < half.Length
    requires Writing(half[..], wr, yy, zPend, [], eob, all) && Tallies(freq[..], half[..wr], eob)
    modifies half, freq
    ensures nMTF <= wr + zPend + 1 && nMTF <= half.Length && half[..nMTF] == all && Tallies(freq[..], all, eob)
  {
    hide *;
    ghost var s0 := half[..];
    NoDigits([]);
    nMTF := wr;
    if zPend > 0 {
      nMTF := PutRun(half, freq, wr, zPend, eob);
      DigitsShort(zPend);
    }
    ghost var s1 := half[..];
    assert s1[..nMTF] == s0[..wr] + Digits(zPend) && nMTF <= wr + zPend;
    ghost var w1 := nMTF;
    nMTF := Put(half, freq, nMTF, eob, eob);
    AfterPut(s1, half[..], w1, eob);
    WriteEnd(s0, wr, half[..], nMTF, yy, zPend, eob, all);
  }

  /** Symbols overwrite the sort array they are computed from, never an entry still to be
      read: before byte i, written symbols and the pending run together number at most i. */
  method GenerateMtfValues(block: array<Byte>, nblock: nat, inUse: array<bool>, unseqToSeq: array<Byte>,
                           half: array<UInt16>, mtfFreq: array<int>, ghost ptr: seq<int>, ghost column: seq<Byte>)
    returns (nInUse: nat, nMTF: nat)
    requires 0 < nblock <= block.Length && inUse.Length == 256 && unseqToSeq.Length == 256 && mtfFreq.Length == 258
    requires half != mtfFreq as object && half != unseqToSeq as object && unseqToSeq != mtfFreq as object
      && HoldsPtr(half[..], ptr)
    requires |ptr| == nblock && forall i :: 0 <= i < nblock ==> 0 <= ptr[i] < nblock
    requires block != unseqToSeq && column == LastColumn(block[..nblock], ptr) && AllUsed(inUse[..], column)
    modifies unseqToSeq, half, mtfFreq
    ensures nInUse == SeqIndex(inUse[..], 256)
    ensures forall x :: 0 <= x < 256 && inUse[x] ==> unseqToSeq[x] == SeqIndex(inUse[..], x)
    ensures nMTF <= nblock + 1 && nMTF <= half.Length && half[..nMTF] == SymbolsOf(inUse[..], column)
    ensures Tallies(mtfFreq[..], SymbolsOf(inUse[..], column), nInUse + 1)
  {
    hide *;
    ghost var used := inUse[..];
    ghost var was := half[..];
    ghost var all, ranks := SymbolsOf(used, column), Ranks(used, column);
    nInUse := MakeMaps(inUse, unseqToSeq);
    var eob := nInUse + 1;
    ghost var maps := unseqToSeq[..];
    ClearFreq(mtfFreq, eob, half[..0]);
    var yy := new Byte[272];
    FillList(yy, nInUse);
    var wr: nat, zPend: nat := 0, 0;
    HoldsFacts(half[..], ptr);
    StartWriting(half[..], used, column, yy[..nInUse]);
    assert ranks[0..] == ranks;
    var i := 0;
    while i < nblock
      invariant 0 <= i <= nblock && wr + zPend <= i
      invariant unseqToSeq[..] == maps && half[2 * i..] == was[2 * i..]
      invariant Writing(half[..], wr, yy[..nInUse], zPend, ranks[i..], eob, all)
      invariant Tallies(mtfFreq[..], half[..wr], eob)
    {
      PtrFacts(was, half[..], ptr, i);
      var j := Word(half[..], i) - 1;
      if j < 0 { j := j + nblock; }
      ColumnAt(block[..nblock], ptr, column, used, i, j);
      var lli := unseqToSeq[block[j]];
      assert lli == maps[block[j]];
      WritingFacts(half[..], wr, yy[..nInUse], zPend, ranks[i..], eob, all);
      NextRank(ranks, i, yy[..nInUse]);
      if yy[0] == lli {
        WriteRun(half[..], wr, yy[..nInUse], zPend, ranks[i..], eob, all);
        zPend := zPend + 1;
      } else {
        wr := PutMove(half, mtfFreq, yy, wr, zPend, lli, nInUse, i, ranks[i..], all);
        zPend := 0;
      }
      assert half[2 * (i + 1)..] == was[2 * (i + 1)..];
      i := i + 1;
    }
    assert ranks[nblock..] == [];
    nMTF := PutEnd(half, mtfFreq, yy[..nInUse], wr, zPend, eob, all);
  }
}