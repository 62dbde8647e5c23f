/**
 The bits the compressor prints for a block, and the proof that the parser reads
 them back: same origPtr, same symbols, exactly those bits.
 */
module Printer {
  import opened Bits
  import opened Codes
  import opened Parser

  // ----- byte mapping

  // Bit i says whether any of the bytes 16i .. 16i + 15 is in use.
  function Used16(used: seq<bool>): (u: seq<bool>)
    requires |used| == 256
    ensures |u| == 16
  {
    seq(16, i requires 0 <= i < 16 => exists j :: 16 * i <= j < 16 * i + 16 && used[j])
  }

  // The in-use bits from position pos on; groups with no byte in use are not printed.
  function FlagBits(used16: seq<bool>, used: seq<bool>, pos: nat): (b: seq<bool>)
    requires |used16| == 16 && |used| == 256 && pos <= 256
    decreases 256 - pos
  {
    if pos == 256 then []
    else if pos % 16 == 0 && !used16[pos / 16] then FlagBits(used16, used, pos + 16)
    else [used[pos]] + FlagBits(used16, used, pos + 1)
  }

  function MappingBits(used: seq<bool>): seq<bool>
    requires |used| == 256
  {
    Used16(used) + FlagBits(Used16(used), used, 0)
  }

  // ----- selectors

  function Ones(n: nat): (b: seq<bool>)
    ensures |b| == n
    decreases n
  {
    if n == 0 then [] else [true] + Ones(n - 1)
  }

  function UnaryBits(mtf: seq<nat>): seq<bool>
    decreases |mtf|
  {
    if mtf == [] then [] else Ones(mtf[0]) + [false] + UnaryBits(mtf[1..])
  }

  function IndexOf<T(==)>(p: seq<T>, x: T): (i: nat)
    requires x in p
    ensures i < |p| && p[i] == x && x !in p[..i]
    decreases |p|
  {
    if p[0] == x then 0 else 1 + IndexOf(p[1..], x)
  }

  // Elements 0 .. j - 1 one place up, slot 0 still old.
  function SlidUp(s: seq<Byte>, j: nat): (t: seq<Byte>)
    requires j < |s|
    ensures |t| == |s|
  {
    if j == 0 then s else [s[0]] + s[..j] + s[j + 1..]
  }

  lemma SlidStep(s: seq<Byte>, j: nat)
    requires j + 1 < |s|
    ensures SlidUp(s, j)[j + 1] == s[j + 1] && SlidUp(s, j + 1) == SlidUp(s, j)[j + 1 := s[j]]
  {
  }

  lemma SlidIsMoved(s: seq<Byte>, j: nat)
    requires j < |s|
    ensures SlidUp(s, j)[0 := s[j]] == MoveToFront<int>(s, j)
  {
  }

  // Move-to-front coding of the selectors.
  function SelectorMtf(sel: seq<int>, pos: seq<int>): (m: seq<nat>)
    requires forall s :: s in sel ==> s in pos
    ensures |m| == |sel|
    decreases |sel|
  {
    if sel == [] then []
    else
      var j := IndexOf(pos, sel[0]);
      MoveKeeps(pos, j);
      [j] + SelectorMtf(sel[1..], MoveToFront(pos, j))
  }

  lemma MoveKeeps<T>(p: seq<T>, j: nat)
    requires j < |p|
    ensures |MoveToFront(p, j)| == |p|
    ensures forall x :: x in MoveToFront(p, j) <==> x in p
  {
    assert p == p[..j] + [p[j]] + p[j + 1..];
  }

  // ----- coding tables

  // From code length a to code length b in unit steps.
  function DeltaBits(a: int, b: int): seq<bool>
    decreases if a < b then b - a else a - b
  {
    if a < b then [true, false] + DeltaBits(a + 1, b)
    else if b < a then [true, true] + DeltaBits(a - 1, b)
    else []
  }

  function LenListBits(curr: int, lens: seq<int>): seq<bool>
    decreases |lens|
  {
    if lens == [] then [] else DeltaBits(curr, lens[0]) + [false] + LenListBits(lens[0], lens[1..])
  }

  function TableBits(lens: seq<int>): seq<bool>
    requires ValidLens(lens)
  {
    ToBits(lens[0], 5) + LenListBits(lens[0], lens)
  }

  function TablesBits(lens: seq<seq<int>>): seq<bool>
    requires forall t :: 0 <= t < |lens| ==> ValidLens(lens[t])
    decreases |lens|
  {
    if lens == [] then [] else TableBits(lens[0]) + TablesBits(lens[1..])
  }

  // ----- symbols

  function CodeBits(lens: seq<seq<int>>, sel: seq<int>, syms: seq<int>, m: nat): seq<bool>
    requires m <= |syms| && Codable(lens, sel, syms)
    decreases |syms| - m
  {
    if m == |syms| then []
    else
      CodableAt(lens, sel, syms, m);
      var t := sel[m / 50];
      ToBits(Code(lens[t], syms[m]), lens[t][syms[m]]) + CodeBits(lens, sel, syms, m + 1)
  }

  // Every symbol has a code in the table its group of 50 selects.
  ghost predicate Codable(lens: seq<seq<int>>, sel: seq<int>, syms: seq<int>) {
    forall m {:trigger CodableOne(lens, sel, syms, m)} :: 0 <= m < |syms| ==> CodableOne(lens, sel, syms, m)
  }

  ghost predicate CodableOne(lens: seq<seq<int>>, sel: seq<int>, syms: seq<int>, m: int) {
    && 0 <= m < |syms| && m / 50 < |sel| && 0 <= sel[m / 50] < |lens|
    && 0 <= syms[m] < |lens[sel[m / 50]]| && ValidLens(lens[sel[m / 50]])
    && Code(lens[sel[m / 50]], syms[m]) < Pow2(lens[sel[m / 50]][syms[m]])
  }

  lemma CodableAt(lens: seq<seq<int>>, sel: seq<int>, syms: seq<int>, m: int)
    requires Codable(lens, sel, syms) && 0 <= m < |syms|
    ensures CodableOne(lens, sel, syms, m)
  {
  }

  // ----- reading the mapping back

  // A one-bit read.
  lemma OneBit(p: Parser, x: bool, tail: seq<bool>)
    requires Ok(p) && !Terminal(p) && Need(p) == 1
    ensures Ok(Next(p, if x then 1 else 0))
    ensures RunBits(p, [x] + tail) == RunBits(Next(p, if x then 1 else 0), tail)
  {
    hide Ok, Next, RunBits, Need;
    RunBitsStep(p, [x], tail);
    ValOne(if x then 1 else 0);
  }

  // An n-bit read of the value v.
  lemma OneField(p: Parser, v: nat, n: nat, tail: seq<bool>)
    requires Ok(p) && !Terminal(p) && Need(p) == n && v < Pow2(n)
    ensures Ok(Next(p, v)) && RunBits(p, ToBits(v, n) + tail) == RunBits(Next(p, v), tail)
  {
    hide *;
    ValOfWord(v, n);
    RunBitsStep(p, ToBits(v, n), tail);
  }

  lemma {:induction false} Read16(h: Header, u: seq<bool>, k: nat, tail: seq<bool>)
    requires OkHeader(h) && |u| == 16 && k < 16
    ensures Ok(FlagsRead(h, u, []))
    ensures RunBits(Mapping16(h, u[..k]), u[k..] + tail) == RunBits(FlagsRead(h, u, []), tail)
    decreases 16 - k
  {
    hide FlagsRead, RunBits;
    var p := Mapping16(h, u[..k]);
    assert u[k..] + tail == [u[k]] + (u[k + 1..] + tail);
    OneBit(p, u[k], u[k + 1..] + tail);
    assert u[..k] + [u[k]] == u[..k + 1];
    FlagsReadOk(h, u, []);
    if k == 15 {
      assert u[16..] + tail == tail && u[..16] == u;
    } else {
      Read16(h, u, k + 1, tail);
    }
  }

  // Groups marked empty are empty.
  ghost predicate Consistent(used16: seq<bool>, used: seq<bool>) {
    && |used16| == 16 && |used| == 256
    && forall i :: 0 <= i < 256 && used[i] ==> used16[i / 16]
  }

  lemma Used16Consistent(used: seq<bool>)
    requires |used| == 256
    ensures Consistent(Used16(used), used)
  {
    forall i | 0 <= i < 256 && used[i]
      ensures Used16(used)[i / 16]
    {
      assert 16 * (i / 16) <= i < 16 * (i / 16) + 16;
    }
  }

  lemma FlagCases(h: Header, used16: seq<bool>, used: seq<bool>, pos: nat, tail: seq<bool>)
    requires Consistent(used16, used) && pos <= 256
    ensures pos == 256 ==> used[..pos] == used && FlagBits(used16, used, pos) + tail == tail
    ensures pos < 256 && pos % 16 == 0 && !used16[pos / 16] ==>
      && FlagBits(used16, used, pos) == FlagBits(used16, used, pos + 16)
      && FlagsRead(h, used16, used[..pos]) == FlagsRead(h, used16, used[..pos + 16])
    ensures pos < 256 && !(pos % 16 == 0 && !used16[pos / 16]) ==>
      FlagBits(used16, used, pos) + tail == [used[pos]] + (FlagBits(used16, used, pos + 1) + tail)
  {
    if pos < 256 && pos % 16 == 0 && !used16[pos / 16] {
      SkippedGroup(used16, used, pos);
    }
  }

  lemma {:induction false} ReadFlags(h: Header, used16: seq<bool>, used: seq<bool>, pos: nat, tail: seq<bool>)
    requires OkHeader(h) && Consistent(used16, used) && pos <= 256 && (pos % 16 == 0 || used16[pos / 16])
    requires |used16| == 16 && |used| == 256
    ensures Ok(FlagsRead(h, used16, used[..pos])) && Ok(FlagsRead(h, used16, used))
    ensures RunBits(FlagsRead(h, used16, used[..pos]), FlagBits(used16, used, pos) + tail) ==
      RunBits(FlagsRead(h, used16, used), tail)
    decreases 256 - pos
  {
    hide *;
    FlagsReadOk(h, used16, used[..pos]);
    FlagsReadOk(h, used16, used);
    FlagCases(h, used16, used, pos, tail);
    if pos == 256 {
    } else if pos % 16 == 0 && !used16[pos / 16] {
      ReadFlags(h, used16, used, pos + 16, tail);
    } else {
      ReadFlags(h, used16, used, pos + 1, tail);
      ReadFlag(h, used16, used, pos, FlagBits(used16, used, pos + 1) + tail);
    }
  }

  lemma SkippedGroup(used16: seq<bool>, used: seq<bool>, pos: nat)
    requires Consistent(used16, used) && pos < 256 && pos % 16 == 0 && !used16[pos / 16]
    ensures used[..pos + 16] == used[..pos] + seq(16, _ => false)
  {
    forall i | pos <= i < pos + 16
      ensures !used[i]
    {
      assert i / 16 == pos / 16;
    }
  }

  lemma ReadFlag(h: Header, used16: seq<bool>, used: seq<bool>, pos: nat, tail: seq<bool>)
    requires OkHeader(h) && |used16| == 16 && |used| == 256 && pos < 256 && used16[pos / 16]
    ensures Ok(FlagsRead(h, used16, used[..pos])) && Ok(FlagsRead(h, used16, used[..pos + 1]))
    ensures RunBits(FlagsRead(h, used16, used[..pos]), [used[pos]] + tail) ==
      RunBits(FlagsRead(h, used16, used[..pos + 1]), tail)
  {
    hide RunBits;
    var p := Mapping256(h, used16, used[..pos]);
    assert FlagsRead(h, used16, used[..pos]) == p;
    assert used[..pos] + [used[pos]] == used[..pos + 1];
    hide FlagsRead;
    OneBit(p, used[pos], tail);
  }

  lemma ReadMapping(h: Header, used: seq<bool>, tail: seq<bool>)
    requires OkHeader(h) && |used| == 256 && Unseq(used, 256) != []
    ensures Ok(Mapping16(h, [])) && Ok(GroupCount(h, Unseq(used, 256)))
    ensures RunBits(Mapping16(h, []), MappingBits(used) + tail) == RunBits(GroupCount(h, Unseq(used, 256)), tail)
  {
    hide RunBits, FlagBits, Unseq;
    var u := Used16(used);
    UnseqSize(used, 256);
    Used16Consistent(used);
    assert u[..0] == [] && u[0..] == u && used[..0] == [];
    Read16(h, u, 0, FlagBits(u, used, 0) + tail);
    ReadFlags(h, u, used, 0, tail);
    assert MappingBits(used) + tail == u + (FlagBits(u, used, 0) + tail);
  }

  // ----- reading the selectors back

  lemma {:induction false} ReadUnary(h: Header, unseq: seq<Byte>, nGroups: int, nSel: int, i: int, mtf: seq<int>,
                                     j: int, k: nat, tail: seq<bool>)
    requires OkSelecting(h, unseq, nGroups, nSel, i, mtf, j) && j + k < nGroups
    ensures Ok(SelectorRead(h, unseq, nGroups, nSel, i, mtf, j + k))
    ensures RunBits(SelectorBit(h, unseq, nGroups, nSel, i, mtf, j), Ones(k) + [false] + tail)
      == RunBits(SelectorRead(h, unseq, nGroups, nSel, i, mtf, j + k), tail)
    decreases k
  {
    hide RunBits, SelectorRead;
    var p := SelectorBit(h, unseq, nGroups, nSel, i, mtf, j);
    if k == 0 {
      assert Ones(0) + [false] + tail == [false] + tail;
      OneBit(p, false, tail);
    } else {
      assert Ones(k) + [false] + tail == [true] + (Ones(k - 1) + [false] + tail);
      OneBit(p, true, Ones(k - 1) + [false] + tail);
      ReadUnary(h, unseq, nGroups, nSel, i, mtf, j + 1, k - 1, tail);
    }
  }

  // The selectors that are kept: the first 18002.
  function Kept(all: seq<nat>): (kept: seq<nat>)
    ensures |kept| == if |all| <= 18002 then |all| else 18002
  {
    if |all| <= 18002 then all else all[..18002]
  }

  lemma KeptAll(all: seq<nat>)
    requires |all| <= 18002
    ensures Kept(all) == all && Kept([]) == []
  {
  }

  lemma {:induction false} ReadSelectors(h: Header, unseq: seq<Byte>, nGroups: int, all: seq<nat>, i: nat,
                                         tail: seq<bool>)
    requires OkHeader(h) && 1 <= |unseq| <= 256 && 2 <= nGroups <= N_GROUPS && i < |all| < 0x8000
    requires forall k :: 0 <= k < |all| ==> all[k] < nGroups
    ensures Ok(SelectorBit(h, unseq, nGroups, |all|, i, Kept(all[..i]), 0))
    ensures Ok(FirstLen(Coding(h, unseq, nGroups, UndoSelectorMtf(Kept(all), Iota(nGroups))), []))
    ensures RunBits(SelectorBit(h, unseq, nGroups, |all|, i, Kept(all[..i]), 0), UnaryBits(all[i..]) + tail)
      == RunBits(FirstLen(Coding(h, unseq, nGroups, UndoSelectorMtf(Kept(all), Iota(nGroups))), []), tail)
    decreases |all| - i
  {
    hide *;
    SelectingOk(h, unseq, nGroups, all, i);
    UnaryCases(all, i, tail);
    ReadUnary(h, unseq, nGroups, |all|, i, Kept(all[..i]), 0, all[i], UnaryBits(all[i + 1..]) + tail);
    SelectorReadCases(h, unseq, nGroups, all, i);
    if i + 1 < |all| {
      ReadSelectors(h, unseq, nGroups, all, i + 1, tail);
    }
  }

  lemma UnaryCases(all: seq<nat>, i: nat, tail: seq<bool>)
    requires i < |all|
    ensures UnaryBits(all[i..]) + tail == Ones(all[i]) + [false] + (UnaryBits(all[i + 1..]) + tail)
    ensures i + 1 == |all| ==> UnaryBits(all[i + 1..]) + tail == tail
  {
    assert all[i..][1..] == all[i + 1..];
  }

  lemma SelectorReadCases(h: Header, unseq: seq<Byte>, nGroups: int, all: seq<nat>, i: nat)
    requires i < |all| && 0 <= nGroups
    ensures SelectorRead(h, unseq, nGroups, |all|, i, Kept(all[..i]), all[i])
      == (if i + 1 < |all| then SelectorBit(h, unseq, nGroups, |all|, i + 1, Kept(all[..i + 1]), 0)
          else FirstLen(Coding(h, unseq, nGroups, UndoSelectorMtf(Kept(all), Iota(nGroups))), []))
  {
    hide UndoSelectorMtf;
    KeptMore(all, i);
    if i + 1 == |all| {
      assert all[..i + 1] == all;
    }
  }

  lemma KeptMore(all: seq<nat>, i: nat)
    requires i < |all|
    ensures Kept(all[..i + 1]) == if i < MAX_SELECTORS then Kept(all[..i]) + [all[i]] else Kept(all[..i])
  {
  }

  lemma SelectingOk(h: Header, unseq: seq<Byte>, nGroups: int, all: seq<nat>, i: nat)
    requires OkHeader(h) && 1 <= |unseq| <= 256 && 2 <= nGroups <= N_GROUPS && i < |all| < 0x8000
    requires forall k :: 0 <= k < |all| ==> all[k] < nGroups
    ensures OkSelecting(h, unseq, nGroups, |all|, i, Kept(all[..i]), 0)
      && Ok(SelectorBit(h, unseq, nGroups, |all|, i, Kept(all[..i]), 0))
  {
  }

  /** A block may announce more selectors than any encoder writes: it is parsed as the block that
      has only the first 18002 of them. */
  lemma SelectorsCut(h: Header, unseq: seq<Byte>, nGroups: int, all: seq<nat>, tail: seq<bool>)
    requires OkHeader(h) && 1 <= |unseq| <= 256 && 2 <= nGroups <= 6 && 18002 < |all| < 0x8000
    requires forall k :: 0 <= k < |all| ==> all[k] < nGroups
    ensures Ok(SelectorCount(h, unseq, nGroups))
    ensures RunBits(SelectorCount(h, unseq, nGroups), ToBits(|all|, 15) + (UnaryBits(all) + tail))
      == RunBits(SelectorCount(h, unseq, nGroups), ToBits(18002, 15) + (UnaryBits(all[..18002]) + tail))
  {
    hide RunBits, ToBits, UnaryBits, UndoSelectorMtf;
    SelectorsRead(h, unseq, nGroups, all, tail);
    SelectorsRead(h, unseq, nGroups, all[..18002], tail);
  }

  // The count and the selectors.
  lemma SelectorsRead(h: Header, unseq: seq<Byte>, nGroups: int, all: seq<nat>, tail: seq<bool>)
    requires OkHeader(h) && 1 <= |unseq| <= 256 && 2 <= nGroups <= N_GROUPS && 1 <= |all| < 0x8000
    requires forall k :: 0 <= k < |all| ==> all[k] < nGroups
    ensures Ok(SelectorCount(h, unseq, nGroups))
    ensures Ok(FirstLen(Coding(h, unseq, nGroups, UndoSelectorMtf(Kept(all), Iota(nGroups))), []))
    ensures RunBits(SelectorCount(h, unseq, nGroups), ToBits(|all|, 15) + (UnaryBits(all) + tail))
      == RunBits(FirstLen(Coding(h, unseq, nGroups, UndoSelectorMtf(Kept(all), Iota(nGroups))), []), tail)
  {
    Pow2Small();
    hide RunBits, ToBits, UnaryBits, UndoSelectorMtf, Pow2;
    OneField(SelectorCount(h, unseq, nGroups), |all|, 15, UnaryBits(all) + tail);
    assert all[..0] == [] && Kept([]) == [] && all[0..] == all;
    ReadSelectors(h, unseq, nGroups, all, 0, tail);
  }

  /** The decoder's move-to-front undoes the encoder's. */
  lemma {:induction false} SelectorMtfInverse(sel: seq<int>, pos: seq<int>)
    requires forall s :: s in sel ==> s in pos
    ensures UndoSelectorMtf(SelectorMtf(sel, pos), pos) == sel
    decreases |sel|
  {
    if sel != [] {
      var j := IndexOf(pos, sel[0]);
      MoveKeeps(pos, j);
      SelectorMtfInverse(sel[1..], MoveToFront(pos, j));
      assert SelectorMtf(sel, pos)[1..] == SelectorMtf(sel[1..], MoveToFront(pos, j));
    }
  }

  lemma {:induction false} SelectorMtfBound(sel: seq<int>, pos: seq<int>, k: nat)
    requires (forall s :: s in sel ==> s in pos) && k < |sel|
    ensures SelectorMtf(sel, pos)[k] < |pos|
    decreases |sel|
  {
    if k != 0 {
      var j := IndexOf(pos, sel[0]);
      MoveKeeps(pos, j);
      SelectorMtfBound(sel[1..], MoveToFront(pos, j), k - 1);
    }
  }

  // ----- reading the coding tables back

  lemma {:induction false} ReadDelta(c: Coding, lens: seq<seq<int>>, cur: seq<int>, a: int, b: int, tail: seq<bool>)
    requires OkReading(c, lens, cur, a) && 1 <= b <= 20
    ensures Ok(LenStop(c, lens, cur, b)) && Ok(LenStop(c, lens, cur, a))
    ensures RunBits(LenStop(c, lens, cur, a), DeltaBits(a, b) + tail) == RunBits(LenStop(c, lens, cur, b), tail)
    decreases if a < b then b - a else a - b
  {
    hide RunBits, OkCoding, OkLens;
    var p := LenStop(c, lens, cur, a);
    if a == b {
      assert DeltaBits(a, b) + tail == tail;
    } else {
      var a' := if a < b then a + 1 else a - 1;
      var more := DeltaBits(a', b) + tail;
      assert DeltaBits(a, b) + tail == [true] + ([a > b] + more);
      OneBit(p, true, [a > b] + more);
      OneBit(LenStep(c, lens, cur, a), a > b, more);
      ReadDelta(c, lens, cur, a', b, tail);
    }
  }

  // What follows once the lengths of one table are complete.
  function TableRead(c: Coding, lens: seq<seq<int>>): Parser {
    if |lens| < c.nGroups then FirstLen(c, lens) else NextSymbol(StartBlock(c, lens), AtStart)
  }

  lemma LenReadCases(c: Coding, lens: seq<seq<int>>, all: seq<int>, i: nat)
    requires |all| == |c.unseq| + 2 && i < |all| && ValidLens(all)
    ensures LenRead(c, lens, all[..i], all[i])
      == (if i + 1 < |all| then LenStop(c, lens, all[..i + 1], all[i]) else TableRead(c, lens + [all]))
  {
    hide MakeTable, NextSymbol;
    assert all[..i] + [all[i]] == all[..i + 1];
    if i + 1 == |all| {
      assert all[..i + 1] == all;
    }
  }

  lemma LenListCases(curr: int, all: seq<int>, i: nat, tail: seq<bool>)
    requires i < |all|
    ensures LenListBits(curr, all[i..]) + tail == DeltaBits(curr, all[i])
      + ([false] + (LenListBits(all[i], all[i + 1..]) + tail))
    ensures i + 1 == |all| ==> LenListBits(all[i], all[i + 1..]) + tail == tail
  {
    assert all[i..][1..] == all[i + 1..];
  }

  lemma ReadingOk(c: Coding, lens: seq<seq<int>>, all: seq<int>, i: nat, curr: int)
    requires OkCoding(c) && OkLens(c, lens) && |lens| < c.nGroups && |all| == |c.unseq| + 2 && ValidLens(all)
    requires i < |all| && 1 <= curr <= 20
    ensures OkReading(c, lens, all[..i], curr) && Ok(LenStop(c, lens, all[..i], curr)) && 1 <= all[i] <= 20
    ensures OkReading(c, lens, all[..i], all[i])
    ensures Need(LenStop(c, lens, all[..i], curr)) == 1 && !Terminal(LenStop(c, lens, all[..i], curr))
    ensures Next(LenStop(c, lens, all[..i], curr), 0) == LenRead(c, lens, all[..i], curr)
  {
    hide LenRead, OkCoding, OkLens;
  }

  lemma {:induction false} ReadLenList(c: Coding, lens: seq<seq<int>>, all: seq<int>, i: nat, curr: int,
                                       tail: seq<bool>)
    requires OkCoding(c) && OkLens(c, lens) && |lens| < c.nGroups && |all| == |c.unseq| + 2 && ValidLens(all)
    requires i < |all| && 1 <= curr <= 20
    ensures Ok(LenStop(c, lens, all[..i], curr)) && Ok(TableRead(c, lens + [all]))
    ensures RunBits(LenStop(c, lens, all[..i], curr), LenListBits(curr, all[i..]) + tail)
      == RunBits(TableRead(c, lens + [all]), tail)
    decreases |all| - i
  {
    hide *;
    ReadingOk(c, lens, all, i, curr);
    ReadingOk(c, lens, all, i, all[i]);
    LenListCases(curr, all, i, tail);
    var more := LenListBits(all[i], all[i + 1..]) + tail;
    ReadDelta(c, lens, all[..i], curr, all[i], [false] + more);
    OneBit(LenStop(c, lens, all[..i], all[i]), false, more);
    LenReadCases(c, lens, all, i);
    LenReadOk(c, lens, all[..i], all[i]);
    if i + 1 < |all| {
      ReadLenList(c, lens, all, i + 1, all[i], tail);
    }
  }

  lemma FirstLenFacts(c: Coding, lens: seq<seq<int>>, all: seq<int>)
    requires OkCoding(c) && OkLens(c, lens) && |lens| < c.nGroups && |all| == |c.unseq| + 2 && ValidLens(all)
    ensures var p := FirstLen(c, lens);
      Ok(p) && !Terminal(p) && Need(p) == 5 && Next(p, all[0]) == LenStop(c, lens, all[..0], all[0])
    ensures all[0] < Pow2(5) && 1 <= all[0] <= 20 && all[0..] == all
  {
    hide OkCoding, OkLens;
    Pow2Small();
  }

  lemma ReadTable(c: Coding, lens: seq<seq<int>>, all: seq<int>, tail: seq<bool>)
    requires OkCoding(c) && OkLens(c, lens) && |lens| < c.nGroups && |all| == |c.unseq| + 2 && ValidLens(all)
    ensures Ok(FirstLen(c, lens)) && Ok(TableRead(c, lens + [all]))
    ensures RunBits(FirstLen(c, lens), TableBits(all) + tail) == RunBits(TableRead(c, lens + [all]), tail)
  {
    FirstLenFacts(c, lens, all);
    assert TableBits(all) + tail == ToBits(all[0], 5) + (LenListBits(all[0], all) + tail);
    hide *;
    OneField(FirstLen(c, lens), all[0], 5, LenListBits(all[0], all) + tail);
    ReadLenList(c, lens, all, 0, all[0], tail);
  }

  lemma TablesCases(all: seq<seq<int>>, t: nat, tail: seq<bool>)
    requires t <= |all| && forall k :: 0 <= k < |all| ==> ValidLens(all[k])
    ensures t < |all| ==> TablesBits(all[t..]) + tail == TableBits(all[t]) + (TablesBits(all[t + 1..]) + tail)
    ensures t == |all| ==> TablesBits(all[t..]) + tail == tail
  {
    hide TableBits, ValidLens;
    if t < |all| {
      assert all[t..][1..] == all[t + 1..];
    }
  }

  lemma OkLensPrefix(c: Coding, all: seq<seq<int>>, t: nat)
    requires OkLens(c, all) && t <= |all|
    ensures OkLens(c, all[..t]) && forall k :: 0 <= k < |all| ==> ValidLens(all[k])
    ensures t < |all| ==> all[..t] + [all[t]] == all[..t + 1] && |all[t]| == |c.unseq| + 2
    ensures all[..|all|] == all
  {
  }

  lemma {:induction false} ReadTables(c: Coding, all: seq<seq<int>>, t: nat, tail: seq<bool>)
    requires OkCoding(c) && OkLens(c, all) && |all| == c.nGroups && t < |all|
    requires forall k :: 0 <= k < |all| ==> ValidLens(all[k])
    ensures Ok(FirstLen(c, all[..t])) && Ok(NextSymbol(StartBlock(c, all), AtStart))
    ensures RunBits(FirstLen(c, all[..t]), TablesBits(all[t..]) + tail) ==
      RunBits(NextSymbol(StartBlock(c, all), AtStart), tail)
    decreases |all| - t
  {
    hide *;
    OkLensPrefix(c, all, t);
    OkLensPrefix(c, all, t + 1);
    TablesCases(all, t, tail);
    ReadTable(c, all[..t], all[t], TablesBits(all[t + 1..]) + tail);
    TableReadCases(c, all, t);
    if t + 1 < |all| {
      ReadTables(c, all, t + 1, tail);
    } else {
      TablesCases(all, t + 1, tail);
    }
  }

  lemma TableReadCases(c: Coding, all: seq<seq<int>>, t: nat)
    requires t < |all| == c.nGroups
    ensures TableRead(c, all[..t + 1])
      == (if t + 1 < |all| then FirstLen(c, all[..t + 1]) else NextSymbol(StartBlock(c, all), AtStart))
  {
    if t + 1 == |all| {
      assert all[..t + 1] == all;
    }
  }

  // ----- reading the symbols back

  // The parser state after decoding the given symbols, bits aside.
  ghost function Consume(p: Parser, syms: seq<int>): Parser
    requires Ok(p)
    decreases |syms|
  {
    if syms == [] then p
    else if !p.SymbolStart? || !(0 <= syms[0] < |p.b.c.unseq| + 2) then Failed(BadData)
    else
      SymbolOk(p.b, p.site, syms[0]);
      Consume(Symbol(p.b, p.site, syms[0]), syms[1..])
  }

  // p waits for symbol m of the block.
  ghost predicate AtSymbol(p: Parser, lens: seq<seq<int>>, sel: seq<int>, m: nat) {
    && Ok(p) && p.SymbolStart? && p.b.lens == lens && p.b.c.selector == sel
    && p.b.groupNo == m / 50 && p.b.groupPos == 49 - m % 50
  }

  lemma NextSymbolAt(b: Block, site: Site, m: nat)
    requires OkBlock(b)
    requires if m == 0 then b.groupNo == -1 && b.groupPos == 0
             else b.groupNo == (m - 1) / 50 && b.groupPos == 49 - (m - 1) % 50
    requires m / 50 < |b.c.selector|
    ensures AtSymbol(NextSymbol(b, site), b.lens, b.c.selector, m)
  {
    NextSymbolOk(b, site);
    hide OkBlock, Ok;
  }

  lemma SymbolAdvances(b: Block, site: Site, sym: int)
    requires OkBlock(b) && 0 <= sym < |b.c.unseq| + 2
    ensures var q := Symbol(b, site, sym); q.SymbolStart? ==>
      && q.b.lens == b.lens && q.b.c == b.c
      && (if b.groupPos == 0 then q.b.groupNo == b.groupNo + 1 && q.b.groupPos == 49
          else q.b.groupNo == b.groupNo && q.b.groupPos == b.groupPos - 1)
  {
    hide OkBlock;
  }

  lemma AtNext(p: Parser, lens: seq<seq<int>>, sel: seq<int>, m: nat, sym: int)
    requires AtSymbol(p, lens, sel, m) && OkBlock(p.b) && 0 <= sym < |p.b.c.unseq| + 2
    ensures Ok(Symbol(p.b, p.site, sym))
    ensures Symbol(p.b, p.site, sym).SymbolStart? ==> AtSymbol(Symbol(p.b, p.site, sym), lens, sel, m + 1)
  {
    SymbolOk(p.b, p.site, sym);
    SymbolAdvances(p.b, p.site, sym);
    hide OkBlock, Ok, Symbol;
  }

  lemma AtFacts(p: Parser, lens: seq<seq<int>>, sel: seq<int>, syms: seq<int>, m: nat)
    requires AtSymbol(p, lens, sel, m) && CodableOne(lens, sel, syms, m)
    ensures OkBlock(p.b) && InGroup(p.b) && CurrentLens(p.b) == lens[sel[m / 50]]
    ensures 0 <= syms[m] < |CurrentLens(p.b)| == |p.b.c.unseq| + 2 && p == SymbolStart(p.b, p.site)
    ensures 0 <= lens[sel[m / 50]][syms[m]]
  {
    hide MakeTable, Code;
  }

  lemma CodeCases(lens: seq<seq<int>>, sel: seq<int>, syms: seq<int>, m: nat, tail: seq<bool>)
    requires m < |syms| && Codable(lens, sel, syms)
    ensures CodableOne(lens, sel, syms, m) && 0 <= lens[sel[m / 50]][syms[m]]
    ensures CodeBits(lens, sel, syms, m) + tail
      == ToBits(Code(lens[sel[m / 50]], syms[m]), lens[sel[m / 50]][syms[m]])
        + (CodeBits(lens, sel, syms, m + 1) + tail)
    ensures syms[m..][0] == syms[m] && syms[m..][1..] == syms[m + 1..] && syms[m..] != []
  {
    hide *;
    CodableAt(lens, sel, syms, m);
    CodeBitsStep(lens, sel, syms, m);
    assert syms[m..][1..] == syms[m + 1..];
    var one := ToBits(Code(lens[sel[m / 50]], syms[m]), lens[sel[m / 50]][syms[m]]);
    assert one + CodeBits(lens, sel, syms, m + 1) + tail == one + (CodeBits(lens, sel, syms, m + 1) + tail);
  }

  lemma CodeBitsStep(lens: seq<seq<int>>, sel: seq<int>, syms: seq<int>, m: nat)
    requires m < |syms| && Codable(lens, sel, syms) && CodableOne(lens, sel, syms, m)
    ensures 0 <= m / 50 < |sel| && 0 <= sel[m / 50] < |lens| && 0 <= syms[m] < |lens[sel[m / 50]]|
      && 0 <= lens[sel[m / 50]][syms[m]]
    ensures CodeBits(lens, sel, syms, m)
      == ToBits(Code(lens[sel[m / 50]], syms[m]), lens[sel[m / 50]][syms[m]]) + CodeBits(lens, sel, syms, m + 1)
  {
    hide Code, ToBits, Codable;
  }

  lemma ConsumeCases(p: Parser, syms: seq<int>)
    requires Ok(p) && syms != [] && Consume(p, syms).Output?
    ensures p.SymbolStart? && 0 <= syms[0] < |p.b.c.unseq| + 2 && OkBlock(p.b) && Ok(Symbol(p.b, p.site, syms[0]))
    ensures Consume(p, syms) == Consume(Symbol(p.b, p.site, syms[0]), syms[1..])
  {
    SymbolOk(p.b, p.site, syms[0]);
    hide Symbol;
  }

  lemma ReadSymbol(p: Parser, lens: seq<seq<int>>, sel: seq<int>, syms: seq<int>, m: nat, tail: seq<bool>)
    requires AtSymbol(p, lens, sel, m) && Codable(lens, sel, syms) && m < |syms| && Ok(p)
    ensures OkBlock(p.b) && 0 <= syms[m] < |p.b.c.unseq| + 2 && Ok(Symbol(p.b, p.site, syms[m]))
    ensures RunBits(p, CodeBits(lens, sel, syms, m) + tail) ==
      RunBits(Symbol(p.b, p.site, syms[m]), CodeBits(lens, sel, syms, m + 1) + tail)
  {
    CodeCases(lens, sel, syms, m, tail);
    AtFacts(p, lens, sel, syms, m);
    hide RunBits, CodeBits, ToBits, Code, Pow2, OkBlock, Ok, Symbol, Codable, AtSymbol, InGroup, ValidLens, CurrentLens;
    ReadCode(p.b, p.site, syms[m], Code(CurrentLens(p.b), syms[m]), CurrentLens(p.b)[syms[m]],
             CodeBits(lens, sel, syms, m + 1) + tail);
  }

  /** All codes of a block are read back as its symbols. */
  lemma {:induction false} ReadCodes(p: Parser, lens: seq<seq<int>>, sel: seq<int>, syms: seq<int>, m: nat,
                                     tail: seq<bool>)
    requires m <= |syms| && Codable(lens, sel, syms) && Ok(p)
    requires m < |syms| ==> AtSymbol(p, lens, sel, m)
    requires Consume(p, syms[m..]).Output?
    ensures Ok(Consume(p, syms[m..]))
    ensures RunBits(p, CodeBits(lens, sel, syms, m) + tail) == RunBits(Consume(p, syms[m..]), tail)
    decreases |syms| - m
  {
    hide *;
    if m == |syms| {
      CodesDone(p, lens, sel, syms, tail);
    } else {
      CodeCases(lens, sel, syms, m, tail);
      ConsumeCases(p, syms[m..]);
      ReadSymbol(p, lens, sel, syms, m, tail);
      var q := Symbol(p.b, p.site, syms[m]);
      AtNext(p, lens, sel, m, syms[m]);
      if m + 1 < |syms| {
        MoreSymbols(q, syms[m + 1..]);
      }
      ReadCodes(q, lens, sel, syms, m + 1, tail);
    }
  }

  lemma CodesDone(p: Parser, lens: seq<seq<int>>, sel: seq<int>, syms: seq<int>, tail: seq<bool>)
    requires Codable(lens, sel, syms) && Ok(p)
    ensures Consume(p, syms[|syms|..]) == p && CodeBits(lens, sel, syms, |syms|) + tail == tail
  {
  }

  lemma MoreSymbols(q: Parser, syms: seq<int>)
    requires Ok(q) && syms != [] && Consume(q, syms).Output?
    ensures q.SymbolStart?
  {
  }

  // ----- headers and trailers

  function ByteField(v: int): seq<bool> {
    ToBits(if v < 0 then 0 else v, 8)
  }

  // bsPutUInt32
  function U32Bits(u: nat): seq<bool> {
    ByteField(u / 0x100_0000 % 256) + ByteField(u / 0x1_0000 % 256) + ByteField(u / 0x100 % 256) + ByteField(u % 256)
  }

  function StreamHeaderBits(level: int): seq<bool> {
    ByteField(0x42) + ByteField(0x5a) + ByteField(0x68) + ByteField(0x30 + level)
  }

  function BlockMagicBits(k: nat): seq<bool>
    decreases 6 - k
  {
    if k >= 6 then [] else ByteField(BlockMagicByte(k)) + BlockMagicBits(k + 1)
  }

  function EndMagicBits(k: nat): seq<bool>
    decreases 6 - k
  {
    if k >= 6 then [] else ByteField(EndMagicByte(k)) + EndMagicBits(k + 1)
  }

  function TrailerBits(crc: nat): seq<bool> {
    EndMagicBits(0) + U32Bits(crc)
  }

  // A byte-wide read.
  lemma OneByteField(p: Parser, v: nat, tail: seq<bool>)
    requires Ok(p) && !Terminal(p) && Need(p) == 8 && v < 256
    ensures Ok(Next(p, v)) && RunBits(p, ByteField(v) + tail) == RunBits(Next(p, v), tail)
  {
    hide Ok, Next, RunBits, Need, ToBits;
    assert Pow2(8) == 256;
    OneField(p, v, 8, tail);
  }

  lemma {:induction false} ReadBlockMagic(level: int, k: nat, tail: seq<bool>)
    requires 1 <= level <= 9 && k <= 5
    ensures Ok(BlockMagic(level, k)) && Ok(BlockCrc(level, 0, 0))
    ensures RunBits(BlockMagic(level, k), BlockMagicBits(k) + tail) == RunBits(BlockCrc(level, 0, 0), tail)
    decreases 6 - k
  {
    hide RunBits, ByteField;
    OneByteField(BlockMagic(level, k), BlockMagicByte(k), BlockMagicBits(k + 1) + tail);
    assert BlockMagicBits(k) + tail == ByteField(BlockMagicByte(k)) + (BlockMagicBits(k + 1) + tail);
    if k < 5 {
      ReadBlockMagic(level, k + 1, tail);
    } else {
      assert BlockMagicBits(6) + tail == tail;
    }
  }

  lemma {:induction false} ReadEndMagic(k: nat, tail: seq<bool>)
    requires 1 <= k <= 5
    ensures Ok(EndMagic(k)) && Ok(EndCrc(0, 0))
    ensures RunBits(EndMagic(k), EndMagicBits(k) + tail) == RunBits(EndCrc(0, 0), tail)
    decreases 6 - k
  {
    hide RunBits, ByteField;
    OneByteField(EndMagic(k), EndMagicByte(k), EndMagicBits(k + 1) + tail);
    assert EndMagicBits(k) + tail == ByteField(EndMagicByte(k)) + (EndMagicBits(k + 1) + tail);
    if k < 5 {
      ReadEndMagic(k + 1, tail);
    } else {
      assert EndMagicBits(6) + tail == tail;
    }
  }

  lemma U32Cases(u: nat, tail: seq<bool>)
    requires u < 0x1_0000_0000
    ensures var b3, b2, b1, b0 := u / 0x100_0000 % 256, u / 0x1_0000 % 256, u / 0x100 % 256, u % 256;
      && U32Bits(u) + tail == ByteField(b3) + (ByteField(b2) + (ByteField(b1) + (ByteField(b0) + tail)))
      && PushByte(PushByte(PushByte(PushByte(0, b3), b2), b1), b0) == u
  {
    hide ByteField;
    PushFour(u);
    hide PushByte;
    var b3, b2, b1, b0 := u / 0x100_0000 % 256, u / 0x1_0000 % 256, u / 0x100 % 256, u % 256;
    FourFields(ByteField(b3), ByteField(b2), ByteField(b1), ByteField(b0), tail);
  }

  lemma FourFields(a: seq<bool>, b: seq<bool>, c: seq<bool>, d: seq<bool>, tail: seq<bool>)
    ensures a + b + c + d + tail == a + (b + (c + (d + tail)))
  {
  }

  lemma PushSmall(x: nat, v: nat)
    requires x < 0x100_0000 && v < 256
    ensures PushByte(x, v) == 256 * x + v
  {
  }

  lemma Digits256(u: nat)
    requires u < 0x1_0000_0000
    ensures u == 256 * (u / 0x100) + u % 256 && u / 0x100 < 0x100_0000
    ensures u / 0x100 == 256 * (u / 0x1_0000) + u / 0x100 % 256
    ensures u / 0x1_0000 == 256 * (u / 0x100_0000) + u / 0x1_0000 % 256
    ensures u / 0x100_0000 % 256 == u / 0x100_0000 < 256
  {
  }

  lemma PushFour(u: nat)
    requires u < 0x1_0000_0000
    ensures PushByte(PushByte(PushByte(PushByte(0, u / 0x100_0000 % 256), u / 0x1_0000 % 256), u / 0x100 % 256),
                     u % 256) == u
  {
    hide *;
    Digits256(u);
    PushSmall(0, u / 0x100_0000 % 256);
    PushSmall(u / 0x100_0000, u / 0x1_0000 % 256);
    PushSmall(u / 0x1_0000, u / 0x100 % 256);
    PushSmall(u / 0x100, u % 256);
  }

  lemma ReadBlockCrc(level: int, crc: nat, tail: seq<bool>)
    requires 1 <= level <= 9 && crc < 0x1_0000_0000
    ensures Ok(BlockCrc(level, 0, 0)) && Ok(RandBit(level, crc))
    ensures RunBits(BlockCrc(level, 0, 0), U32Bits(crc) + tail) == RunBits(RandBit(level, crc), tail)
  {
    hide RunBits, ByteField, U32Bits;
    var b3, b2, b1, b0 := crc / 0x100_0000 % 256, crc / 0x1_0000 % 256, crc / 0x100 % 256, crc % 256;
    U32Cases(crc, tail);
    var c1 := PushByte(0, b3);
    var c2 := PushByte(c1, b2);
    var c3 := PushByte(c2, b1);
    OneByteField(BlockCrc(level, 0, 0), b3, ByteField(b2) + (ByteField(b1) + (ByteField(b0) + tail)));
    OneByteField(BlockCrc(level, 1, c1), b2, ByteField(b1) + (ByteField(b0) + tail));
    OneByteField(BlockCrc(level, 2, c2), b1, ByteField(b0) + tail);
    OneByteField(BlockCrc(level, 3, c3), b0, tail);
  }

  lemma PushBound(x: nat, v: nat)
    requires v < 256
    ensures PushByte(x, v) < 0x1_0000_0000
  {
  }

  lemma ReadEndCrc(crc: nat, tail: seq<bool>)
    requires crc < 0x1_0000_0000
    ensures Ok(EndCrc(0, 0)) && Ok(Done(crc))
    ensures RunBits(EndCrc(0, 0), U32Bits(crc) + tail) == RunBits(Done(crc), tail)
  {
    hide RunBits, ByteField, U32Bits, PushByte;
    var b3, b2, b1, b0 := crc / 0x100_0000 % 256, crc / 0x1_0000 % 256, crc / 0x100 % 256, crc % 256;
    U32Cases(crc, tail);
    var c1 := PushByte(0, b3);
    var c2 := PushByte(c1, b2);
    var c3 := PushByte(c2, b1);
    PushBound(0, b3);
    PushBound(c1, b2);
    PushBound(c2, b1);
    OneByteField(EndCrc(0, 0), b3, ByteField(b2) + (ByteField(b1) + (ByteField(b0) + tail)));
    OneByteField(EndCrc(1, c1), b2, ByteField(b1) + (ByteField(b0) + tail));
    OneByteField(EndCrc(2, c2), b1, ByteField(b0) + tail);
    OneByteField(EndCrc(3, c3), b0, tail);
  }

  lemma PtrCases(v: nat, tail: seq<bool>)
    requires v < 0x100_0000
    ensures var b2, b1, b0 := v / 0x1_0000, v / 0x100 % 256, v % 256;
      && ToBits(v, 24) + tail == ByteField(b2) + (ByteField(b1) + (ByteField(b0) + tail))
      && PushByte(0, b2) == b2 && PushByte(b2, b1) == v / 0x100 && PushByte(v / 0x100, b0) == v
  {
    hide *;
    var b2, b1, b0 := v / 0x1_0000, v / 0x100 % 256, v % 256;
    Digits256(v);
    JoinField(v / 0x100, b0, 16);
    JoinField(b2, b1, 8);
    ByteFieldIs(b2);
    PtrPush(v);
    JoinsFour(ByteField(b2), ByteField(b1), ByteField(b0), tail);
  }

  lemma ByteFieldIs(v: nat)
    ensures ByteField(v) == ToBits(v, 8)
  {
  }

  lemma PtrPush(v: nat)
    requires v < 0x100_0000
    ensures var b2, b1, b0 := v / 0x1_0000, v / 0x100 % 256, v % 256;
      PushByte(0, b2) == b2 && PushByte(b2, b1) == v / 0x100 && PushByte(v / 0x100, b0) == v
  {
    hide *;
    Digits256(v);
    PushSmall(0, v / 0x1_0000);
    PushSmall(v / 0x1_0000, v / 0x100 % 256);
    PushSmall(v / 0x100, v % 256);
  }

  lemma JoinField(v: nat, b: nat, n: nat)
    requires b < 256
    ensures ToBits(v * 256 + b, n + 8) == ToBits(v, n) + ByteField(b)
  {
    assert Pow2(8) == 256;
    ShlIsMul(v, 8);
    hide ToBits;
    ToBitsConcat(v, b, n, 8);
  }

  /** The 24 bits of origPtr are taken up to 10 more than a block can hold, and refused beyond. */
  lemma ReadOrigPtr(h: Header, ptr: nat, tail: seq<bool>)
    requires OkHeader(h) && h.origPtr == 0 && ptr < 0x100_0000
    ensures Ok(OrigPtr(h, 0)) && Ok(Mapping16(h.(origPtr := ptr), []))
    ensures RunBits(OrigPtr(h, 0), ToBits(ptr, 24) + tail)
      == if ptr <= 10 + 100000 * h.level then RunBits(Mapping16(h.(origPtr := ptr), []), tail)
         else (Failed(BadData), tail)
  {
    hide *;
    LevelOfHeader(h);
    PtrCases(ptr, tail);
    var b2, b1, b0 := ptr / 0x1_0000, ptr / 0x100 % 256, ptr % 256;
    PtrStep(h, 0, b2);
    OneByteField(OrigPtr(h, 0), b2, ByteField(b1) + (ByteField(b0) + tail));
    PtrStep(h.(origPtr := b2), 1, b1);
    OneByteField(OrigPtr(h.(origPtr := b2), 1), b1, ByteField(b0) + tail);
    PtrStep(h.(origPtr := ptr / 0x100), 2, b0);
    OneByteField(OrigPtr(h.(origPtr := ptr / 0x100), 2), b0, tail);
    MappingOk(h.(origPtr := ptr));
    RefusedStays(tail);
  }

  lemma MappingOk(h: Header)
    requires OkHeader(h)
    ensures Ok(Mapping16(h, []))
  {
  }

  lemma RefusedStays(tail: seq<bool>)
    ensures Ok(Failed(BadData)) && RunBits(Failed(BadData), tail) == (Failed(BadData), tail)
  {
  }

  lemma LevelOfHeader(h: Header)
    requires OkHeader(h)
    ensures 1 <= h.level <= 9
  {
  }

  lemma PtrStep(h: Header, k: int, v: nat)
    requires OkHeader(h) && 0 <= k <= 2
    ensures var p, h' := OrigPtr(h, k), h.(origPtr := PushByte(h.origPtr, v));
      && 1 <= h.level <= 9 && Ok(p) && !Terminal(p) && Need(p) == 8 && OkHeader(h')
      && (k < 2 ==> Next(p, v) == OrigPtr(h', k + 1))
      && (k == 2 ==>
            Next(p, v) == if h'.origPtr <= 10 + 100000 * h.level then Mapping16(h', []) else Failed(BadData))
  {
    hide PushByte;
  }

  // ----- whole blocks

  // What one block prints, apart from its fixed header.
  datatype BlockText = BlockText(crc: nat, origPtr: nat, used: seq<bool>, sel: seq<int>, lens: seq<seq<int>>,
                                 syms: seq<int>)

  ghost predicate Printable(level: int, x: BlockText) {
    && 1 <= level <= 9 && x.crc < 0x1_0000_0000 && x.origPtr <= 10 + 100000 * level
    && |x.used| == 256 && Unseq(x.used, 256) != []
    && 2 <= |x.lens| <= N_GROUPS && 1 <= |x.sel| <= MAX_SELECTORS
    && (forall k :: 0 <= k < |x.sel| ==> 0 <= x.sel[k] < |x.lens|)
    && (forall t :: 0 <= t < |x.lens| ==> |x.lens[t]| == |Unseq(x.used, 256)| + 2 && ValidLens(x.lens[t]))
    && x.syms != [] && Codable(x.lens, x.sel, x.syms)
  }

  function SelMtf(x: BlockText): (m: seq<nat>)
    requires forall k :: 0 <= k < |x.sel| ==> 0 <= x.sel[k] < |x.lens|
    ensures |m| == |x.sel|
  {
    InIota(x.sel, |x.lens|);
    SelectorMtf(x.sel, Iota(|x.lens|))
  }

  lemma InIota(sel: seq<int>, n: nat)
    requires forall k :: 0 <= k < |sel| ==> 0 <= sel[k] < n
    ensures forall s :: s in sel ==> s in Iota(n)
  {
    forall s | s in sel
      ensures s in Iota(n)
    {
      assert Iota(n)[s] == s;
    }
  }

  // The five parts sendMTFValues prints.
  function BodyBits(x: BlockText): seq<bool>
    requires |x.used| == 256 && (forall k :: 0 <= k < |x.sel| ==> 0 <= x.sel[k] < |x.lens|)
    requires (forall t :: 0 <= t < |x.lens| ==> ValidLens(x.lens[t])) && Codable(x.lens, x.sel, x.syms)
  {
    MappingBits(x.used) + (ToBits(|x.lens|, 3) + (ToBits(|x.sel|, 15) + (UnaryBits(SelMtf(x))
      + (TablesBits(x.lens) + CodeBits(x.lens, x.sel, x.syms, 0)))))
  }

  function BlockBits(x: BlockText): seq<bool>
    requires |x.used| == 256 && (forall k :: 0 <= k < |x.sel| ==> 0 <= x.sel[k] < |x.lens|)
    requires (forall t :: 0 <= t < |x.lens| ==> ValidLens(x.lens[t])) && Codable(x.lens, x.sel, x.syms)
  {
    BlockMagicBits(0) + (U32Bits(x.crc) + ([false] + (ToBits(x.origPtr, 24) + BodyBits(x))))
  }

  function HeaderOf(level: int, x: BlockText): Header {
    Header(level, x.crc, false, x.origPtr)
  }

  function CodingOf(level: int, x: BlockText): Coding
    requires |x.used| == 256
  {
    Coding(HeaderOf(level, x), Unseq(x.used, 256), |x.lens|, x.sel)
  }

  lemma PrintableFacts(level: int, x: BlockText)
    requires Printable(level, x)
    ensures OkHeader(HeaderOf(level, x)) && OkCoding(CodingOf(level, x)) && OkLens(CodingOf(level, x), x.lens)
    ensures OkBlock(StartBlock(CodingOf(level, x), x.lens))
      && Ok(NextSymbol(StartBlock(CodingOf(level, x), x.lens), AtStart))
    ensures 1 <= |Unseq(x.used, 256)| <= 256
  {
    UnseqSize(x.used, 256);
    hide Unseq, MakeTable, NextSymbol, Codable;
    NextSymbolOk(StartBlock(CodingOf(level, x), x.lens), AtStart);
  }

  /** What the symbols of a block decode to. */
  ghost predicate DecodesTo(level: int, x: BlockText, column: seq<Byte>) {
    && Printable(level, x)
    && (PrintableFacts(level, x);
        Consume(NextSymbol(StartBlock(CodingOf(level, x), x.lens), AtStart), x.syms) ==
          Output(HeaderOf(level, x), column))
  }

  lemma ReadBody(level: int, x: BlockText, column: seq<Byte>, tail: seq<bool>)
    requires DecodesTo(level, x, column)
    ensures Ok(Mapping16(HeaderOf(level, x), [])) && Ok(Output(HeaderOf(level, x), column))
    ensures RunBits(Mapping16(HeaderOf(level, x), []), BodyBits(x) + tail) == (Output(HeaderOf(level, x), column), tail)
  {
    var h, c, u, n := HeaderOf(level, x), CodingOf(level, x), Unseq(x.used, 256), |x.lens|;
    PrintableFacts(level, x);
    SelFacts(level, x);
    var t4 := CodeBits(x.lens, x.sel, x.syms, 0) + tail;
    var t3 := TablesBits(x.lens) + t4;
    var t2 := UnaryBits(SelMtf(x)) + t3;
    var t1 := ToBits(|x.sel|, 15) + t2;
    BodyCases(x, tail);
    var p := NextSymbol(StartBlock(c, x.lens), AtStart);
    KeptAll(SelMtf(x));
    hide Kept, RunBits, ToBits, UnaryBits, TablesBits, CodeBits, MappingBits, Unseq, Consume, Ok, Next, NextSymbol,
      Codable, ValidLens, MakeTable, SelectorMtf, UndoSelectorMtf, BodyBits, StartBlock, OkCoding, OkLens;
    ReadMapping(h, x.used, ToBits(n, 3) + t1);
    CountFacts(level, x);
    OneField(GroupCount(h, u), n, 3, t1);
    SelectorsRead(h, u, n, SelMtf(x), t3);
    ReadTables(c, x.lens, 0, t4);
    StartAt(level, x);
    ReadCodes(p, x.lens, x.sel, x.syms, 0, tail);
    StaysTerminal(Consume(p, x.syms), tail);
  }

  lemma SelFacts(level: int, x: BlockText)
    requires Printable(level, x)
    ensures forall k :: 0 <= k < |x.sel| ==> SelMtf(x)[k] < |x.lens|
    ensures UndoSelectorMtf(SelMtf(x), Iota(|x.lens|)) == x.sel
    ensures SelMtf(x)[..0] == [] && SelMtf(x)[0..] == SelMtf(x) && x.lens[..0] == [] && x.lens[0..] == x.lens
      && x.syms[0..] == x.syms
  {
    InIota(x.sel, |x.lens|);
    SelectorMtfInverse(x.sel, Iota(|x.lens|));
    forall k | 0 <= k < |x.sel|
      ensures SelMtf(x)[k] < |x.lens|
    {
      SelectorMtfBound(x.sel, Iota(|x.lens|), k);
    }
  }

  lemma BodyCases(x: BlockText, tail: seq<bool>)
    requires |x.used| == 256 && (forall k :: 0 <= k < |x.sel| ==> 0 <= x.sel[k] < |x.lens|)
    requires (forall t :: 0 <= t < |x.lens| ==> ValidLens(x.lens[t])) && Codable(x.lens, x.sel, x.syms)
    ensures BodyBits(x) + tail == MappingBits(x.used)
      + (ToBits(|x.lens|, 3) + (ToBits(|x.sel|, 15) + (UnaryBits(SelMtf(x))
      + (TablesBits(x.lens) + (CodeBits(x.lens, x.sel, x.syms, 0) + tail)))))
  {
    hide MappingBits, ToBits, UnaryBits, TablesBits, CodeBits, SelMtf, Codable, ValidLens;
  }

  lemma CountFacts(level: int, x: BlockText)
    requires Printable(level, x)
    ensures var h, u, n := HeaderOf(level, x), Unseq(x.used, 256), |x.lens|;
      && Ok(GroupCount(h, u)) && !Terminal(GroupCount(h, u)) && Need(GroupCount(h, u)) == 3 && n < Pow2(3)
      && Next(GroupCount(h, u), n) == SelectorCount(h, u, n)
      && Ok(SelectorCount(h, u, n)) && !Terminal(SelectorCount(h, u, n)) && Need(SelectorCount(h, u, n)) == 15
        && |x.sel| < Pow2(15)
      && Next(SelectorCount(h, u, n), |x.sel|) == SelectorBit(h, u, n, |x.sel|, 0, [], 0)
  {
    PrintableFacts(level, x);
    Pow2Small();
    hide Unseq, Codable, ValidLens;
  }

  lemma StartAt(level: int, x: BlockText)
    requires Printable(level, x)
    ensures AtSymbol(NextSymbol(StartBlock(CodingOf(level, x), x.lens), AtStart), x.lens, x.sel, 0)
  {
    PrintableFacts(level, x);
    hide OkBlock, Unseq;
    NextSymbolAt(StartBlock(CodingOf(level, x), x.lens), AtStart, 0);
  }

  /** Printer/parser round trip: the bits of a block, followed by anything, are parsed
      into its header and the column its symbols stand for, and nothing else is consumed. */
  lemma ReadBlock(level: int, x: BlockText, column: seq<Byte>, tail: seq<bool>)
    requires DecodesTo(level, x, column)
    ensures Ok(BlockMagic(level, 0))
    ensures RunBits(BlockMagic(level, 0), BlockBits(x) + tail) == (Output(HeaderOf(level, x), column), tail)
  {
    hide *;
    DecodesFacts(level, x, column);
    var t3 := BodyBits(x) + tail;
    var t2 := ToBits(x.origPtr, 24) + t3;
    var t1 := U32Bits(x.crc) + ([false] + t2);
    BlockCases(x, tail);
    RandBitOk(level, x.crc);
    ReadBlockMagic(level, 0, t1);
    ReadBlockCrc(level, x.crc, [false] + t2);
    OneBit(RandBit(level, x.crc), false, t2);
    ReadOrigPtr(Header(level, x.crc, false, 0), x.origPtr, t3);
    ReadBody(level, x, column, tail);
  }

  lemma DecodesFacts(level: int, x: BlockText, column: seq<Byte>)
    requires DecodesTo(level, x, column)
    ensures 1 <= level <= 9 && x.crc < 0x1_0000_0000 && x.origPtr <= 10 + 100000 * level && |x.used| == 256
    ensures forall k :: 0 <= k < |x.sel| ==> 0 <= x.sel[k] < |x.lens|
    ensures (forall t :: 0 <= t < |x.lens| ==> ValidLens(x.lens[t])) && Codable(x.lens, x.sel, x.syms)
    ensures var h := HeaderOf(level, x); OkHeader(h) && h == Header(level, x.crc, false, 0).(origPtr := x.origPtr)
  {
    hide Unseq, ValidLens, Codable, Consume, NextSymbol, StartBlock;
  }

  lemma RandBitOk(level: int, crc: nat)
    requires 1 <= level <= 9 && crc < 0x1_0000_0000
    ensures var p, h := RandBit(level, crc), Header(level, crc, false, 0);
      Ok(p) && !Terminal(p) && Need(p) == 1 && Next(p, 0) == OrigPtr(h, 0) && OkHeader(h)
  {
  }

  lemma BlockCases(x: BlockText, tail: seq<bool>)
    requires |x.used| == 256 && (forall k :: 0 <= k < |x.sel| ==> 0 <= x.sel[k] < |x.lens|)
    requires (forall t :: 0 <= t < |x.lens| ==> ValidLens(x.lens[t])) && Codable(x.lens, x.sel, x.syms)
    ensures BlockBits(x) + tail == BlockMagicBits(0)
      + (U32Bits(x.crc) + ([false] + (ToBits(x.origPtr, 24) + (BodyBits(x) + tail))))
  {
    hide BodyBits, ToBits, U32Bits, BlockMagicBits, Codable, ValidLens;
  }

  /** The stream header leads to the first block of the announced level. */
  lemma ReadStreamHeader(level: int, tail: seq<bool>)
    requires 1 <= level <= 9
    ensures Ok(Magic(0)) && Ok(BlockMagic(level, 0))
    ensures RunBits(Magic(0), StreamHeaderBits(level) + tail) == RunBits(BlockMagic(level, 0), tail)
  {
    hide RunBits, ByteField;
    var t3 := ByteField(0x30 + level) + tail;
    var t2 := ByteField(0x68) + t3;
    var t1 := ByteField(0x5a) + t2;
    FourFields(ByteField(0x42), ByteField(0x5a), ByteField(0x68), ByteField(0x30 + level), tail);
    OneByteField(Magic(0), 0x42, t1);
    OneByteField(Magic(1), 0x5a, t2);
    OneByteField(Magic(2), 0x68, t3);
    OneByteField(Magic(3), 0x30 + level, tail);
  }

  /** The trailer is told from a block by its first byte and ends the stream with its CRC. */
  lemma ReadTrailer(level: int, crc: nat, tail: seq<bool>)
    requires 1 <= level <= 9 && crc < 0x1_0000_0000
    ensures Ok(BlockMagic(level, 0))
    ensures RunBits(BlockMagic(level, 0), TrailerBits(crc) + tail) == (Done(crc), tail)
  {
    var more := EndMagicBits(1) + (U32Bits(crc) + tail);
    TrailerCases(crc, tail);
    hide RunBits, ByteField, U32Bits, EndMagicBits, TrailerBits;
    OneByteField(BlockMagic(level, 0), EndMagicByte(0), more);
    ReadEndMagic(1, U32Bits(crc) + tail);
    ReadEndCrc(crc, tail);
    StaysTerminal(Done(crc), tail);
  }

  lemma TrailerCases(crc: nat, tail: seq<bool>)
    ensures TrailerBits(crc) + tail == ByteField(EndMagicByte(0)) + (EndMagicBits(1) + (U32Bits(crc) + tail))
  {
    hide ByteField, U32Bits;
    assert EndMagicBits(0) == ByteField(EndMagicByte(0)) + EndMagicBits(1);
    hide EndMagicBits;
  }
}
