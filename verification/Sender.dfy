/**
 Printing a block (sendMTFValues): mapping table, selectors, code lengths and codes
 go to the bit buffer in exactly the order the parser expects them.
 */
module Sender {
  import opened Bits
  import opened Codes
  import opened Parser
  import opened Printer
  import opened BitWriter
  import R = Refine
  import Forest

  // Once rest is written too, the bits emitted are goal; the block before them is text.
  ghost predicate Owes(w: Writer, rest: seq<bool>, goal: seq<bool>, text: seq<Byte>)
    reads w, w.arr2
  {
    && w.Valid() && w.Emitted() + rest == goal && |rest| <= w.Room()
    && w.arr2[..w.zbase] == text
  }

  method Put(w: Writer, n: nat, v: nat, ghost rest: seq<bool>, ghost goal: seq<bool>, ghost text: seq<Byte>)
    requires Owes(w, ToBits(v, n) + rest, goal, text) && n <= 32 && v < Pow2(n)
    modifies w, w.arr2
    ensures Owes(w, rest, goal, text)
  {
    hide Holds, ToBits, Pow2, BytesToBits;
    assert w.Emitted() + (ToBits(v, n) + rest) == w.Emitted() + ToBits(v, n) + rest;
    w.PutBits(n, v);
  }

  // bsW(s,1,1) or bsW(s,1,0)
  method PutFlag(w: Writer, b: bool, ghost rest: seq<bool>, ghost goal: seq<bool>, ghost text: seq<Byte>)
    requires Owes(w, [b] + rest, goal, text)
    modifies w, w.arr2
    ensures Owes(w, rest, goal, text)
  {
    hide Owes, ToBits;
    FlagBit(b);
    if b {
      Put(w, 1, 1, rest, goal, text);
    } else {
      Put(w, 1, 0, rest, goal, text);
    }
  }

  lemma FlagBit(b: bool)
    ensures ToBits(if b then 1 else 0, 1) == [b] && Pow2(1) == 2
  {
    assert ToBits((if b then 1 else 0) / 2, 0) == [];
    assert Pow2(0) == 1;
  }

  // ----- the mapping table

  method FindUsed16(inUse: array<bool>) returns (inUse16: seq<bool>)
    requires inUse.Length == 256
    ensures inUse16 == Used16(inUse[..])
  {
    inUse16 := [];
    var i := 0;
    while i < 16
      invariant 0 <= i <= 16 && |inUse16| == i
      invariant inUse16 == Used16(inUse[..])[..i]
    {
      var any := false;
      var j := 0;
      while j < 16
        invariant 0 <= j <= 16
        invariant any == exists k :: 16 * i <= k < 16 * i + j && inUse[..][k]
      {
        if inUse[i * 16 + j] { any := true; }
        j := j + 1;
      }
      assert Used16(inUse[..])[i] == any;
      inUse16 := inUse16 + [any];
      i := i + 1;
    }
  }

  lemma FlagBitsCases(u: seq<bool>, used: seq<bool>, pos: nat, rest: seq<bool>)
    requires |u| == 16 && |used| == 256 && pos <= 256
    ensures pos == 256 ==> FlagBits(u, used, pos) + rest == rest
    ensures pos < 256 && pos % 16 == 0 && !u[pos / 16] ==> FlagBits(u, used, pos) == FlagBits(u, used, pos + 16)
    ensures pos < 256 && !(pos % 16 == 0 && !u[pos / 16]) ==>
      FlagBits(u, used, pos) + rest == [used[pos]] + (FlagBits(u, used, pos + 1) + rest)
  {
  }

  method SendMapping(w: Writer, inUse: array<bool>, ghost rest: seq<bool>, ghost goal: seq<bool>, ghost text: seq<Byte>)
    requires inUse.Length == 256 && inUse != w.arr2 as object && Owes(w, MappingBits(inUse[..]) + rest, goal, text)
    modifies w, w.arr2
    ensures Owes(w, rest, goal, text)
  {
    hide Owes, FlagBits, Used16;
    ghost var used := inUse[..];
    var u := FindUsed16(inUse);
    ghost var more := FlagBits(u, used, 0) + rest;
    MappingSplit(used, rest);
    var i := 0;
    while i < 16
      invariant 0 <= i <= 16 && inUse[..] == used && Owes(w, u[i..] + more, goal, text)
    {
      assert u[i..] + more == [u[i]] + (u[i + 1..] + more);
      PutFlag(w, u[i], u[i + 1..] + more, goal, text);
      i := i + 1;
    }
    assert u[16..] + more == more;
    i := 0;
    while i < 16
      invariant 0 <= i <= 16 && inUse[..] == used && Owes(w, FlagBits(u, used, 16 * i) + rest, goal, text)
    {
      FlagBitsCases(u, used, 16 * i, rest);
      if u[i] {
        var j := 0;
        while j < 16
          invariant 0 <= j <= 16 && inUse[..] == used && Owes(w, FlagBits(u, used, 16 * i + j) + rest, goal, text)
        {
          FlagBitsCases(u, used, 16 * i + j, rest);
          assert inUse[i * 16 + j] == used[16 * i + j];
          PutFlag(w, inUse[i * 16 + j], FlagBits(u, used, 16 * i + j + 1) + rest, goal, text);
          j := j + 1;
        }
      }
      i := i + 1;
    }
    FlagBitsCases(u, used, 256, rest);
  }

  lemma MappingSplit(used: seq<bool>, rest: seq<bool>)
    requires |used| == 256
    ensures MappingBits(used) + rest == Used16(used)[0..] + (FlagBits(Used16(used), used, 0) + rest)
  {
    hide FlagBits, Used16;
    assert Used16(used)[0..] == Used16(used);
  }

  // ----- selectors

  // Find x in the list and move it to the front, shifting as it goes.
  method SelectorToFront(pos: array<Byte>, x: Byte, n: nat) returns (j: Byte)
    requires n <= pos.Length <= 6 && x in pos[..n]
    modifies pos
    ensures old(x in pos[..n]) && j == IndexOf<int>(old(pos[..n]), x) && j < n
    ensures pos[..n] == MoveToFront<int>(old(pos[..n]), j)
  {
    hide IndexOf, MoveToFront;
    ghost var s := pos[..n];
    ghost var at := IndexOf<int>(s, x);
    j := 0;
    var tmp := pos[0];
    while x != tmp
      invariant 0 <= j <= at < n && tmp == s[j] && pos[..n] == SlidUp(s, j)
      decreases at - j
    {
      NotBefore(s, x, at, j);
      SlidStep(s, j);
      j := j + 1;
      var tmp2 := tmp;
      tmp := pos[j];
      pos[j] := tmp2;
    }
    NotBefore(s, x, at, j);
    pos[0] := tmp;
    SlidIsMoved(s, j);
  }

  // pos[i] = i
  method StartPositions(pos: array<Byte>, n: nat)
    requires n <= pos.Length <= 6
    modifies pos
    ensures pos[..n] == Iota(n)
  {
    var i := 0;
    while i < n
      invariant 0 <= i <= n
      invariant forall k :: 0 <= k < i ==> pos[k] == k
    {
      pos[i] := i;
      i := i + 1;
    }
  }

  lemma MtfUnfold(sel: seq<int>, i: nat, pos: seq<int>)
    requires i < |sel| && forall k :: 0 <= k < |sel| ==> sel[k] in pos
    ensures forall s :: s in sel[i..] ==> s in pos
    ensures sel[i] in pos && forall k :: 0 <= k < |sel| ==> sel[k] in MoveToFront(pos, IndexOf(pos, sel[i]))
    ensures forall s :: s in sel[i + 1..] ==> s in MoveToFront(pos, IndexOf(pos, sel[i]))
    ensures SelectorMtf(sel[i..], pos) == [IndexOf(pos, sel[i])]
      + SelectorMtf(sel[i + 1..], MoveToFront(pos, IndexOf(pos, sel[i])))
  {
    hide MoveToFront, IndexOf;
    assert sel[i..][0] == sel[i] && sel[i..][1..] == sel[i + 1..];
    MoveKeeps(pos, IndexOf(pos, sel[i]));
  }

  predicate AllIn(sel: seq<int>, pos: seq<int>) {
    forall k :: 0 <= k < |sel| ==> sel[k] in pos
  }

  lemma AllInElements(sel: seq<int>, pos: seq<int>)
    requires AllIn(sel, pos)
    ensures forall s :: s in sel ==> s in pos
  {
  }

  // What is left of the move-to-front coding of the selectors.
  ghost function MtfFrom(sel: seq<int>, i: nat, pos: seq<int>): seq<nat>
    requires i <= |sel| && AllIn(sel, pos)
  {
    SelectorMtf(sel[i..], pos)
  }

  lemma MtfFromCases(sel: seq<int>, i: nat, pos: seq<int>)
    requires i <= |sel| && AllIn(sel, pos)
    ensures i == |sel| ==> MtfFrom(sel, i, pos) == []
    ensures i == 0 ==> (forall s :: s in sel ==> s in pos) && MtfFrom(sel, i, pos) == SelectorMtf(sel, pos)
    ensures i < |sel| ==> sel[i] in pos && AllIn(sel, MoveToFront(pos, IndexOf(pos, sel[i])))
    ensures i < |sel| ==>
      MtfFrom(sel, i, pos) == [IndexOf(pos, sel[i])] + MtfFrom(sel, i + 1, MoveToFront(pos, IndexOf(pos, sel[i])))
  {
    hide MoveToFront, IndexOf;
    if i < |sel| { MtfUnfold(sel, i, pos); }
    hide SelectorMtf;
    if i == 0 { AllInElements(sel, pos); assert sel[0..] == sel; }
  }

  /** The selectors are replaced by their places in a move-to-front list. */
  method EncodeSelectors(selector: array<Byte>, nSelectors: nat, nGroups: nat, selectorMtf: array<Byte>)
    requires nSelectors <= selector.Length && nSelectors <= selectorMtf.Length && selector != selectorMtf
      && 1 <= nGroups <= 6
    requires AllIn(selector[..nSelectors], Iota(nGroups))
    modifies selectorMtf
    ensures (forall s :: s in selector[..nSelectors] ==> s in Iota(nGroups))
      && selectorMtf[..nSelectors] == SelectorMtf(selector[..nSelectors], Iota(nGroups))
  {
    hide *;
    ghost var sel: seq<int> := selector[..nSelectors];
    ghost var all := MtfFrom(sel, 0, Iota(nGroups));
    var pos := new Byte[6];
    StartPositions(pos, nGroups);
    MtfFromCases(sel, 0, Iota(nGroups));
    assert selectorMtf[..0] == [];
    var i := 0;
    while i < nSelectors
      invariant 0 <= i <= nSelectors && selector[..nSelectors] == sel && AllIn(sel, pos[..nGroups])
      invariant selectorMtf[..i] + MtfFrom(sel, i, pos[..nGroups]) == all
    {
      ghost var p: seq<int> := pos[..nGroups];
      MtfFromCases(sel, i, p);
      assert selector[i] == sel[i];
      var j := SelectorToFront(pos, selector[i], nGroups);
      ghost var before := selectorMtf[..i];
      selectorMtf[i] := j;
      assert selectorMtf[..i + 1] == before + [j];
      Snoc(before, j, MtfFrom(sel, i + 1, MoveToFront(p, j)));
      i := i + 1;
    }
    MtfFromCases(sel, nSelectors, pos[..nGroups]);
    assert selectorMtf[..nSelectors] + [] == selectorMtf[..nSelectors];
  }

  lemma Snoc(a: seq<nat>, x: nat, b: seq<nat>)
    ensures a + ([x] + b) == a + [x] + b
  {
  }

  // A run of ones and its zero.
  method SendUnary(w: Writer, j: nat, ghost rest: seq<bool>, ghost goal: seq<bool>, ghost text: seq<Byte>)
    requires Owes(w, Ones(j) + [false] + rest, goal, text)
    modifies w, w.arr2
    ensures Owes(w, rest, goal, text)
  {
    hide Owes;
    var k := 0;
    while k < j
      invariant 0 <= k <= j && Owes(w, Ones(j - k) + [false] + rest, goal, text)
    {
      assert Ones(j - k) + [false] + rest == [true] + (Ones(j - k - 1) + [false] + rest);
      PutFlag(w, true, Ones(j - k - 1) + [false] + rest, goal, text);
      k := k + 1;
    }
    assert Ones(0) + [false] + rest == [false] + rest;
    PutFlag(w, false, rest, goal, text);
  }

  lemma UnaryBitsCases(mtf: seq<nat>, i: nat, rest: seq<bool>)
    requires i <= |mtf|
    ensures i < |mtf| ==> UnaryBits(mtf[i..]) + rest == Ones(mtf[i]) + [false] + (UnaryBits(mtf[i + 1..]) + rest)
    ensures i == |mtf| ==> UnaryBits(mtf[i..]) + rest == rest
    ensures i == 0 ==> mtf[i..] == mtf
  {
    if i < |mtf| { assert mtf[i..][1..] == mtf[i + 1..]; }
  }

  method SendSelectors(w: Writer, nGroups: nat, selectorMtf: array<Byte>, nSelectors: nat, ghost mtf: seq<nat>,
                       ghost rest: seq<bool>, ghost goal: seq<bool>, ghost text: seq<Byte>)
    requires 2 <= nGroups <= 6 && nSelectors <= selectorMtf.Length && nSelectors <= MAX_SELECTORS
      && selectorMtf != w.arr2
    requires mtf == selectorMtf[..nSelectors]
    requires Owes(w, ToBits(nGroups, 3) + (ToBits(nSelectors, 15) + (UnaryBits(mtf) + rest)), goal, text)
    modifies w, w.arr2
    ensures Owes(w, rest, goal, text)
  {
    hide Owes, ToBits, UnaryBits, Ones, Pow2;
    Pow2Small();
    Put(w, 3, nGroups, ToBits(nSelectors, 15) + (UnaryBits(mtf) + rest), goal, text);
    Put(w, 15, nSelectors, UnaryBits(mtf) + rest, goal, text);
    UnaryBitsCases(mtf, 0, rest);
    var i := 0;
    while i < nSelectors
      invariant 0 <= i <= nSelectors && selectorMtf[..nSelectors] == mtf
        && Owes(w, UnaryBits(mtf[i..]) + rest, goal, text)
    {
      UnaryBitsCases(mtf, i, rest);
      assert selectorMtf[i] == mtf[i];
      SendUnary(w, selectorMtf[i], UnaryBits(mtf[i + 1..]) + rest, goal, text);
      i := i + 1;
    }
    UnaryBitsCases(mtf, nSelectors, rest);
  }

  // ----- coding tables

  lemma DeltaCases(a: int, b: int, rest: seq<bool>)
    ensures a < b ==> DeltaBits(a, b) + rest == ToBits(2, 2) + (DeltaBits(a + 1, b) + rest)
    ensures b < a ==> DeltaBits(a, b) + rest == ToBits(3, 2) + (DeltaBits(a - 1, b) + rest)
    ensures a == b ==> DeltaBits(a, b) + rest == rest
    ensures Pow2(2) == 4
  {
    TwoBits();
    assert Pow2(1) == 2;
    hide ToBits, Pow2;
  }

  lemma TwoBits()
    ensures ToBits(2, 2) == [true, false] && ToBits(3, 2) == [true, true] && Pow2(2) == 4
  {
    assert ToBits(0, 0) == [] && ToBits(1, 1) == [true];
    assert Pow2(0) == 1 && Pow2(1) == 2;
  }

  method SendDelta(w: Writer, curr0: int, target: int, ghost rest: seq<bool>, ghost goal: seq<bool>,
                   ghost text: seq<Byte>)
    requires Owes(w, DeltaBits(curr0, target) + ([false] + rest), goal, text)
    modifies w, w.arr2
    ensures Owes(w, rest, goal, text)
  {
    hide Owes, DeltaBits, ToBits, Pow2;
    var curr := curr0;
    ghost var more := [false] + rest;
    while curr < target
      invariant curr <= target || curr == curr0
      invariant Owes(w, DeltaBits(curr, target) + more, goal, text)
    {
      DeltaCases(curr, target, more);
      Put(w, 2, 2, DeltaBits(curr + 1, target) + more, goal, text);
      curr := curr + 1;
    }
    while curr > target
      invariant curr >= target && Owes(w, DeltaBits(curr, target) + more, goal, text)
    {
      DeltaCases(curr, target, more);
      Put(w, 2, 3, DeltaBits(curr - 1, target) + more, goal, text);
      curr := curr - 1;
    }
    DeltaCases(curr, target, more);
    PutFlag(w, false, rest, goal, text);
  }

  method SendTable(w: Writer, len: seq<int>, ghost rest: seq<bool>, ghost goal: seq<bool>, ghost text: seq<Byte>)
    requires ValidLens(len) && Owes(w, TableBits(len) + rest, goal, text)
    modifies w, w.arr2
    ensures Owes(w, rest, goal, text)
  {
    hide *;
    TableSplit(len, rest);
    var curr := len[0];
    Put(w, 5, curr, LenListBits(curr, len[0..]) + rest, goal, text);
    var i := 0;
    while i < |len|
      invariant 0 <= i <= |len|
      invariant Owes(w, (if i < |len| then LenListBits(curr, len[i..]) + rest else rest), goal, text)
    {
      LenListCases(curr, len, i, rest);
      SendDelta(w, curr, len[i], LenListBits(len[i], len[i + 1..]) + rest, goal, text);
      curr := len[i];
      i := i + 1;
    }
  }

  lemma TableSplit(len: seq<int>, rest: seq<bool>)
    requires ValidLens(len)
    ensures TableBits(len) + rest == ToBits(len[0], 5) + (LenListBits(len[0], len[0..]) + rest)
    ensures len != [] && 1 <= len[0] < Pow2(5)
  {
    Pow2Small();
    hide ToBits, LenListBits, Pow2;
    assert len[0..] == len;
  }

  method SendTables(w: Writer, lens: seq<seq<int>>, ghost rest: seq<bool>, ghost goal: seq<bool>, ghost text: seq<Byte>)
    requires (forall t :: 0 <= t < |lens| ==> ValidLens(lens[t])) && Owes(w, TablesBits(lens) + rest, goal, text)
    modifies w, w.arr2
    ensures Owes(w, rest, goal, text)
  {
    hide *;
    assert lens[0..] == lens;
    var t := 0;
    while t < |lens|
      invariant 0 <= t <= |lens| && Owes(w, TablesBits(lens[t..]) + rest, goal, text)
    {
      TablesCases(lens, t, rest);
      SendTable(w, lens[t], TablesBits(lens[t + 1..]) + rest, goal, text);
      t := t + 1;
    }
    TablesCases(lens, t, rest);
  }

  // ----- codes

  // code[t][v] is the code of v in table t.
  ghost predicate CodesFor(lens: seq<seq<int>>, code: seq<seq<int>>) {
    |code| == |lens| && forall t :: 0 <= t < |lens| ==> TableCodes(lens[t], code[t])
  }

  ghost predicate TableCodes(len: seq<int>, code: seq<int>) {
    |code| == |len| && forall v :: 0 <= v < |len| ==> code[v] == Code(len, v)
  }

  lemma CodeAt(lens: seq<seq<int>>, code: seq<seq<int>>, sel: seq<int>, syms: seq<int>, m: nat, rest: seq<bool>)
    requires CodesFor(lens, code) && Codable(lens, sel, syms) && m < |syms|
    ensures m / 50 < |sel| && 0 <= sel[m / 50] < |lens| && 0 <= syms[m] < |lens[sel[m / 50]]| && |code| == |lens|
    ensures var t := sel[m / 50];
      && syms[m] < |code[t]| && 0 <= lens[t][syms[m]] <= 20 && 0 <= code[t][syms[m]] < Pow2(lens[t][syms[m]])
      && CodeBits(lens, sel, syms, m) + rest
        == ToBits(code[t][syms[m]], lens[t][syms[m]]) + (CodeBits(lens, sel, syms, m + 1) + rest)
  {
    hide ToBits, Code, Pow2;
    CodableAt(lens, sel, syms, m);
    CodeCases(lens, sel, syms, m, rest);
  }

  // The symbols of one group of up to 50.
  method SendGroup(w: Writer, lens: seq<seq<int>>, code: seq<seq<int>>, t: int, mtfv: array<UInt16>, gs: nat, ge: nat,
                   ghost sel: seq<int>, ghost syms: seq<int>, ghost rest: seq<bool>, ghost goal: seq<bool>,
                     ghost text: seq<Byte>)
    requires CodesFor(lens, code) && Codable(lens, sel, syms) && mtfv != w.arr2 as object
    requires gs <= ge < |syms| <= mtfv.Length && mtfv[..|syms|] == syms && gs / 50 == ge / 50 < |sel|
      && t == sel[gs / 50]
    requires Owes(w, CodeBits(lens, sel, syms, gs) + rest, goal, text)
    modifies w, w.arr2
    ensures Owes(w, CodeBits(lens, sel, syms, ge + 1) + rest, goal, text)
  {
    hide *;
    var i := gs;
    while i <= ge
      invariant gs <= i <= ge + 1 && mtfv[..|syms|] == syms && Owes(w, CodeBits(lens, sel, syms, i) + rest, goal, text)
    {
      SameGroup(gs, ge, i);
      CodeAt(lens, code, sel, syms, i, rest);
      assert mtfv[i] == syms[i];
      Put(w, lens[t][mtfv[i]], code[t][mtfv[i]], CodeBits(lens, sel, syms, i + 1) + rest, goal, text);
      i := i + 1;
    }
  }

  lemma SameGroup(gs: nat, ge: nat, i: nat)
    requires gs / 50 == ge / 50 && gs <= i <= ge
    ensures i / 50 == gs / 50
  {
  }

  method SendCodes(w: Writer, lens: seq<seq<int>>, code: seq<seq<int>>, selector: array<Byte>, nSelectors: nat,
                   mtfv: array<UInt16>, nMTF: nat, ghost syms: seq<int>, ghost rest: seq<bool>, ghost goal: seq<bool>,
                     ghost text: seq<Byte>)
    requires nSelectors <= selector.Length && nMTF <= mtfv.Length && selector != w.arr2 && mtfv != w.arr2 as object
    requires syms == mtfv[..nMTF] && CodesFor(lens, code) && Codable(lens, selector[..nSelectors], syms)
    requires nSelectors == (nMTF + 49) / 50
    requires Owes(w, CodeBits(lens, selector[..nSelectors], syms, 0) + rest, goal, text)
    modifies w, w.arr2
    ensures Owes(w, rest, goal, text)
  {
    hide *;
    ghost var sel: seq<int> := selector[..nSelectors];
    var selCtr, gs := 0, 0;
    while gs < nMTF
      invariant 0 <= gs <= nMTF && gs == (if 50 * selCtr < nMTF then 50 * selCtr else nMTF) && 0 <= selCtr
      invariant gs == nMTF ==> selCtr == nSelectors
      invariant mtfv[..nMTF] == syms && selector[..nSelectors] == sel
      invariant Owes(w, CodeBits(lens, sel, syms, gs) + rest, goal, text)
    {
      var ge := gs + 50 - 1;
      if ge >= nMTF { ge := nMTF - 1; }
      GroupBounds(gs, ge, selCtr, nMTF);
      assert selector[selCtr] == sel[selCtr];
      SendGroup(w, lens, code, selector[selCtr], mtfv, gs, ge, sel, syms, rest, goal, text);
      gs := ge + 1;
      selCtr := selCtr + 1;
    }
    AllCodes(lens, sel, syms, rest);
  }

  lemma GroupBounds(gs: nat, ge: nat, selCtr: nat, nMTF: nat)
    requires gs == 50 * selCtr < nMTF && ge == (if gs + 49 >= nMTF then nMTF - 1 else gs + 49)
    ensures gs / 50 == ge / 50 == selCtr < (nMTF + 49) / 50 && (ge + 1 == nMTF ==> selCtr + 1 == (nMTF + 49) / 50)
    ensures ge + 1 == (if 50 * (selCtr + 1) < nMTF then 50 * (selCtr + 1) else nMTF)
  {
  }

  lemma AllCodes(lens: seq<seq<int>>, sel: seq<int>, syms: seq<int>, rest: seq<bool>)
    requires Codable(lens, sel, syms)
    ensures CodeBits(lens, sel, syms, |syms|) + rest == rest
  {
  }

  // ----- how much a block can print

  lemma {:induction false} UnarySize(mtf: seq<nat>)
    requires forall k :: 0 <= k < |mtf| ==> mtf[k] < 6
    ensures |UnaryBits(mtf)| <= 6 * |mtf|
    decreases |mtf|
  {
    if mtf != [] { UnarySize(mtf[1..]); }
  }

  lemma {:induction false} DeltaSize(a: int, b: int)
    ensures |DeltaBits(a, b)| == 2 * (if a < b then b - a else a - b)
    decreases if a < b then b - a else a - b
  {
    if a < b {
      DeltaSize(a + 1, b);
    } else if b < a {
      DeltaSize(a - 1, b);
    }
  }

  lemma {:induction false} LenListSize(curr: int, lens: seq<int>)
    requires 1 <= curr <= 17 && forall k :: 0 <= k < |lens| ==> 1 <= lens[k] <= 17
    ensures |LenListBits(curr, lens)| <= 33 * |lens|
    decreases |lens|
  {
    if lens != [] {
      DeltaSize(curr, lens[0]);
      LenListSize(lens[0], lens[1..]);
    }
  }

  lemma {:induction false} TablesSize(lens: seq<seq<int>>, a: nat)
    requires R.CompleteCodes(lens, a) && 2 <= a <= 258 && forall t :: 0 <= t < |lens| ==> ValidLens(lens[t])
    ensures |TablesBits(lens)| <= 8519 * |lens|
    decreases |lens|
  {
    hide Forest.KraftSum, Pow2;
    if lens != [] {
      LenListSize(lens[0][0], lens[0]);
      TablesSize(lens[1..], a);
    }
  }

  lemma {:induction false} CodesSize(lens: seq<seq<int>>, sel: seq<int>, syms: seq<int>, m: nat, a: nat)
    requires R.CompleteCodes(lens, a) && Codable(lens, sel, syms) && m <= |syms|
    ensures |CodeBits(lens, sel, syms, m)| <= 17 * (|syms| - m)
    decreases |syms| - m
  {
    hide Forest.KraftSum, Pow2, Code;
    if m < |syms| {
      CodableAt(lens, sel, syms, m);
      CodesSize(lens, sel, syms, m + 1, a);
    }
  }

  lemma {:induction false} FlagsSize(u: seq<bool>, used: seq<bool>, pos: nat)
    requires |u| == 16 && |used| == 256 && pos <= 256
    ensures |FlagBits(u, used, pos)| <= 256 - pos
    decreases 256 - pos
  {
    if pos < 256 {
      if pos % 16 == 0 && !u[pos / 16] { FlagsSize(u, used, pos + 16); } else { FlagsSize(u, used, pos + 1); }
    }
  }

  // The tables and selectors are those chosen for the symbols.
  ghost predicate Chosen(x: BlockText) {
    && |x.used| == 256 && Unseq(x.used, 256) != [] && |Unseq(x.used, 256)| <= 256
    && 2 <= |x.lens| <= 6 && R.CompleteCodes(x.lens, |Unseq(x.used, 256)| + 2)
    && |x.sel| == (|x.syms| + 49) / 50 <= 18001 && (forall k :: 0 <= k < |x.sel| ==> 0 <= x.sel[k] < |x.lens|)
    && x.syms != [] && R.Symbols(x.syms, |Unseq(x.used, 256)| + 2)
  }

  lemma CompleteValid(len: seq<int>, a: nat)
    requires R.CompleteCode(len, a) && 3 <= a <= 258
    ensures ValidLens(len) && Fits(len)
  {
    hide Forest.KraftSum, Pow2;
    KraftFits(len);
  }

  lemma ChosenValid(x: BlockText, t: int)
    requires Chosen(x) && 0 <= t < |x.lens|
    ensures ValidLens(x.lens[t]) && |x.lens[t]| == |Unseq(x.used, 256)| + 2
    ensures forall v :: 0 <= v < |x.lens[t]| ==> Code(x.lens[t], v) < Pow2(x.lens[t][v])
  {
    hide Forest.KraftSum, Pow2, Code, Unseq;
    CompleteValid(x.lens[t], |Unseq(x.used, 256)| + 2);
  }

  // What is needed to print a block at all.
  lemma ChosenBody(x: BlockText)
    requires Chosen(x)
    ensures |x.used| == 256 && (forall k :: 0 <= k < |x.sel| ==> 0 <= x.sel[k] < |x.lens|)
    ensures (forall t :: 0 <= t < |x.lens| ==> ValidLens(x.lens[t])) && Codable(x.lens, x.sel, x.syms)
  {
    hide Unseq, ValidLens, Code, Pow2, R.CompleteCodes;
    forall t | 0 <= t < |x.lens|
      ensures ValidLens(x.lens[t])
    {
      ChosenValid(x, t);
    }
    forall m {:trigger CodableOne(x.lens, x.sel, x.syms, m)} | 0 <= m < |x.syms|
      ensures CodableOne(x.lens, x.sel, x.syms, m)
    {
      SelectorExists(m, |x.syms|);
      ChosenValid(x, x.sel[m / 50]);
    }
  }

  lemma SelectorExists(m: nat, n: nat)
    requires m < n
    ensures m / 50 < (n + 49) / 50
  {
  }

  /** What is chosen can be printed, and the parser will accept it. */
  lemma ChosenPrintable(level: int, x: BlockText)
    requires Chosen(x) && 1 <= level <= 9 && x.crc < 0x1_0000_0000 && x.origPtr <= 10 + 100000 * level
    ensures Printable(level, x)
  {
    hide Unseq, ValidLens, Code, Pow2, R.CompleteCodes, Codable;
    ChosenBody(x);
    forall t | 0 <= t < |x.lens|
      ensures |x.lens[t]| == |Unseq(x.used, 256)| + 2
    {
      ChosenValid(x, t);
    }
  }

  /** A block of n symbols takes at most 17n + 159410 bits. */
  lemma BodySize(x: BlockText)
    requires Chosen(x) && |x.used| == 256 && (forall k :: 0 <= k < |x.sel| ==> 0 <= x.sel[k] < |x.lens|)
    requires (forall t :: 0 <= t < |x.lens| ==> ValidLens(x.lens[t])) && Codable(x.lens, x.sel, x.syms)
    ensures |BodyBits(x)| <= 17 * |x.syms| + 159410
  {
    hide Unseq, ValidLens, Code, Pow2, R.CompleteCodes, FlagBits, UnaryBits, TablesBits, CodeBits, ToBits,
      SelectorMtf, Codable;
    FlagsSize(Used16(x.used), x.used, 0);
    MtfSize(x);
    UnarySize(SelMtf(x));
    TablesSize(x.lens, |Unseq(x.used, 256)| + 2);
    CodesSize(x.lens, x.sel, x.syms, 0, |Unseq(x.used, 256)| + 2);
  }

  lemma MtfSize(x: BlockText)
    requires 2 <= |x.lens| <= 6 && forall k :: 0 <= k < |x.sel| ==> 0 <= x.sel[k] < |x.lens|
    ensures forall k :: 0 <= k < |SelMtf(x)| ==> SelMtf(x)[k] < 6
  {
    hide SelectorMtf;
    InIota(x.sel, |x.lens|);
    forall k | 0 <= k < |x.sel|
      ensures SelMtf(x)[k] < 6
    {
      SelectorMtfBound(x.sel, Iota(|x.lens|), k);
    }
  }

  // ----- printing the body

  method AssignTable(len: seq<int>) returns (code: seq<int>)
    requires ValidLens(len)
    ensures TableCodes(len, code)
  {
    hide Code;
    var lenArr, codeArr := new int[258], new int[258];
    var minLen, maxLen := 32, 0;
    var i := 0;
    while i < |len|
      invariant 0 <= i <= |len|
      invariant forall k :: 0 <= k < i ==> lenArr[k] == len[k] && minLen <= len[k] <= maxLen
      invariant if i == 0 then minLen == 32 && maxLen == 0 else 1 <= minLen <= 20 && 1 <= maxLen <= 20
    {
      lenArr[i] := len[i];
      if len[i] > maxLen { maxLen := len[i]; }
      if len[i] < minLen { minLen := len[i]; }
      i := i + 1;
    }
    assert lenArr[..|len|] == len;
    AssignCodes(codeArr, lenArr, minLen, maxLen, |len|);
    code := codeArr[..|len|];
  }

  method AssignTables(lens: seq<seq<int>>) returns (code: seq<seq<int>>)
    requires forall t :: 0 <= t < |lens| ==> ValidLens(lens[t])
    ensures CodesFor(lens, code)
  {
    hide TableCodes, ValidLens;
    code := [];
    var t := 0;
    while t < |lens|
      invariant 0 <= t <= |lens| && |code| == t
      invariant forall u :: 0 <= u < t ==> TableCodes(lens[u], code[u])
    {
      var c := AssignTable(lens[t]);
      code := code + [c];
      t := t + 1;
    }
  }

  lemma BeginOwing(w: Writer, rest: seq<bool>)
    requires w.Valid() && |rest| <= w.Room()
    ensures w.zbase + w.numZ <= w.arr2.Length && 0 <= w.bsLive && Owes(w, rest, w.Emitted() + rest, w.arr2[..w.zbase])
  {
    hide Holds, ToBits, BytesToBits;
  }

  lemma OwesNothing(w: Writer, goal: seq<bool>, text: seq<Byte>)
    requires Owes(w, [], goal, text)
    ensures w.Valid() && w.Emitted() == goal && w.zbase <= w.arr2.Length && w.arr2[..w.zbase] == text
      && |text| == w.zbase
  {
    hide Holds, ToBits, BytesToBits;
    assert w.Emitted() + [] == w.Emitted();
  }

  method PrepareTables(lens: seq<seq<int>>, ghost a: nat) returns (code: seq<seq<int>>)
    requires R.CompleteCodes(lens, a) && 3 <= a <= 258
    ensures CodesFor(lens, code)
  {
    hide Forest.KraftSum, Pow2, ValidLens, CodesFor;
    forall t | 0 <= t < |lens|
      ensures ValidLens(lens[t])
    {
      CompleteValid(lens[t], a);
    }
    code := AssignTables(lens);
  }

  lemma MakeChosen(x: BlockText, nMTF: nat, nInUse: nat, selector: seq<Byte>, nSelectors: nat)
    requires |x.used| == 256 && nInUse == |Unseq(x.used, 256)| && 1 <= nInUse <= 256 && |x.syms| == nMTF >= 1
    requires |x.lens| == R.GroupCount(nMTF) && R.CompleteCodes(x.lens, nInUse + 2) && R.Symbols(x.syms, nInUse + 2)
    requires nSelectors == (nMTF + 49) / 50 <= 18001 && R.Selected(selector, nSelectors, |x.lens|)
      && nSelectors <= |selector|
    requires x.sel == selector[..nSelectors]
    ensures Chosen(x)
  {
    hide Unseq, R.CompleteCodes;
  }

  lemma ChosenSel(x: BlockText)
    requires Chosen(x)
    ensures AllIn(x.sel, Iota(|x.lens|)) && 2 <= |x.lens| <= 6 && |x.sel| <= 18001 < MAX_SELECTORS
  {
    forall k | 0 <= k < |x.sel|
      ensures x.sel[k] in Iota(|x.lens|)
    {
      assert Iota(|x.lens|)[x.sel[k]] == x.sel[k];
    }
  }

  lemma BodyOrder(x: BlockText, mtf: seq<nat>)
    requires |x.used| == 256 && (forall k :: 0 <= k < |x.sel| ==> 0 <= x.sel[k] < |x.lens|)
    requires (forall t :: 0 <= t < |x.lens| ==> ValidLens(x.lens[t])) && Codable(x.lens, x.sel, x.syms)
    requires (forall s :: s in x.sel ==> s in Iota(|x.lens|)) && mtf == SelectorMtf(x.sel, Iota(|x.lens|))
    ensures BodyBits(x) == MappingBits(x.used) + (ToBits(|x.lens|, 3) + (ToBits(|x.sel|, 15) + (UnaryBits(mtf)
      + (TablesBits(x.lens) + (CodeBits(x.lens, x.sel, x.syms, 0) + [])))))
  {
    hide MappingBits, ToBits, UnaryBits, TablesBits, CodeBits, SelectorMtf, Codable, ValidLens;
    NoTail(CodeBits(x.lens, x.sel, x.syms, 0));
  }

  /** Any symbols over the alphabet are printed as a block body that can be parsed, within
      17 bits a symbol and 159410 more. */
  method SendMtfValues(w: Writer, inUse: array<bool>, nInUse: nat, mtfv: array<UInt16>, nMTF: nat, mtfFreq: array<int>,
                       selector: array<Byte>, selectorMtf: array<Byte>, ghost crc: nat, ghost origPtr: nat)
    returns (ghost x: BlockText)
    requires inUse.Length == 256 && inUse != w.arr2 as object && selector.Length == selectorMtf.Length == 18002
      && mtfFreq.Length == 258
    requires selector != selectorMtf && selector != w.arr2 && selectorMtf != w.arr2 && mtfv != w.arr2 as object
    requires selector != mtfv as object && selectorMtf != mtfv as object && selector != inUse as object
      && selectorMtf != inUse as object
    requires nInUse == |Unseq(inUse[..], 256)| && 1 <= nInUse <= 256 && 1 <= nMTF <= mtfv.Length && nMTF <= 900001
    requires R.Symbols(mtfv[..nMTF], nInUse + 2)
    requires w.Valid() && 17 * nMTF + 159410 <= w.Room()
    modifies w, w.arr2, selector, selectorMtf
    ensures Chosen(x) && x.used == old(inUse[..]) && x.syms == old(mtfv[..nMTF]) && x.crc == crc && x.origPtr == origPtr
    ensures |x.used| == 256 && (forall k :: 0 <= k < |x.sel| ==> 0 <= x.sel[k] < |x.lens|)
    ensures (forall t :: 0 <= t < |x.lens| ==> ValidLens(x.lens[t])) && Codable(x.lens, x.sel, x.syms)
    ensures R.ChosenBy(old(mtfFreq[..]), x.syms, nInUse + 2, x.lens, x.sel)
    ensures w.Valid() && w.Emitted() == old(w.Emitted()) + BodyBits(x)
    ensures w.zbase == old(w.zbase) && w.zbase <= w.arr2.Length && w.arr2[..w.zbase] == old(w.arr2[..w.zbase])
  {
    hide *;
    ghost var syms: seq<int> := mtfv[..nMTF];
    var lens, nSelectors := R.ChooseTables(mtfv, nMTF, mtfFreq, nInUse + 2, selector, syms);
    ghost var seeds :|
      R.Seeded(seeds, old(mtfFreq[..]), nInUse + 2, R.GroupCount(nMTF), nMTF)
      && R.FourRounds(seeds, selector[..], lens, syms, nInUse + 2);
    ghost var sel: seq<int> := selector[..nSelectors];
    R.MakeChosenBy(old(mtfFreq[..]), syms, nInUse + 2, lens, selector[..], sel, seeds);
    x := BlockText(crc, origPtr, inUse[..], sel, lens, syms);
    MakeChosen(x, nMTF, nInUse, selector[..], nSelectors);
    ChosenBody(x);
    ChosenSel(x);
    var code := PrepareTables(lens, nInUse + 2);
    EncodeSelectors(selector, nSelectors, |lens|, selectorMtf);
    ghost var mtf: seq<nat> := selectorMtf[..nSelectors];
    BodySize(x);
    SendBody(w, x, inUse, lens, code, selector, selectorMtf, nSelectors, mtfv, nMTF, mtf);
  }

  // The five parts, in order.
  method SendBody(w: Writer, ghost x: BlockText, inUse: array<bool>, lens: seq<seq<int>>, code: seq<seq<int>>,
                  selector: array<Byte>, selectorMtf: array<Byte>, nSelectors: nat, mtfv: array<UInt16>, nMTF: nat,
                    ghost mtf: seq<nat>)
    requires inUse.Length == 256 && inUse != w.arr2 as object && selector != w.arr2 && selectorMtf != w.arr2
      && mtfv != w.arr2 as object
    requires nSelectors <= selector.Length && nSelectors <= selectorMtf.Length && nMTF <= mtfv.Length
      && nSelectors <= MAX_SELECTORS
    requires x.used == inUse[..] && x.sel == selector[..nSelectors] && x.lens == lens && x.syms == mtfv[..nMTF]
    requires mtf == selectorMtf[..nSelectors] && 2 <= |lens| <= 6 && nSelectors == (nMTF + 49) / 50
      && CodesFor(lens, code)
    requires |x.used| == 256 && (forall k :: 0 <= k < |x.sel| ==> 0 <= x.sel[k] < |x.lens|)
    requires (forall t :: 0 <= t < |x.lens| ==> ValidLens(x.lens[t])) && Codable(x.lens, x.sel, x.syms)
    requires (forall s :: s in x.sel ==> s in Iota(|x.lens|)) && mtf == SelectorMtf(x.sel, Iota(|x.lens|))
    requires w.Valid() && |BodyBits(x)| <= w.Room()
    modifies w, w.arr2
    ensures w.Valid() && w.Emitted() == old(w.Emitted()) + BodyBits(x)
    ensures w.zbase == old(w.zbase) && w.zbase <= w.arr2.Length && w.arr2[..w.zbase] == old(w.arr2[..w.zbase])
  {
    hide *;
    BeginOwing(w, BodyBits(x));
    ghost var goal, text := w.Emitted() + BodyBits(x), w.arr2[..w.zbase];
    BodyOrder(x, mtf);
    ghost var t4 := CodeBits(lens, x.sel, x.syms, 0) + [];
    ghost var t3 := TablesBits(lens) + t4;
    ghost var t2 := ToBits(|lens|, 3) + (ToBits(nSelectors, 15) + (UnaryBits(mtf) + t3));
    SendMapping(w, inUse, t2, goal, text);
    SendSelectors(w, |lens|, selectorMtf, nSelectors, mtf, t3, goal, text);
    SendTables(w, lens, t4, goal, text);
    SendCodes(w, lens, code, selector, nSelectors, mtfv, nMTF, x.syms, [], goal, text);
    OwesNothing(w, goal, text);
  }
}
