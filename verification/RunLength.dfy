/**
 The run-length front end of the compressor (ADD_CHAR_TO_BLOCK, add_pair_to_block,
 flush_RL): the current block together with the pending run always stands for
 exactly the bytes taken in.
 */
module RunLength {
  import opened Bits
  import opened Expansion
  import Crc
  import CC = ClmulCrc
  import Gf2

  // ----- what a run is coded as

  function Pair(ch: Byte, len: nat): (s: seq<Byte>)
    requires 1 <= len <= 255
    ensures 1 <= |s| <= 5 && s[0] == ch
  {
    if len < 4 then Fill(ch, len) else Fill(ch, 4) + [len - 4]
  }

  lemma PairExpands(ch: Byte, len: nat)
    requires 1 <= len <= 255
    ensures Expand(Pair(ch, len)) == Expanded(Fill(ch, len), false)
  {
    var b := Pair(ch, len);
    if len < 4 {
      assert RunOf(b) == len && b[len..] == [];
      assert Fill(ch, len) + [] == Fill(ch, len);
    } else {
      assert RunOf(b) == 4 && b[5..] == [];
      assert Fill(ch, 4 + b[4] as int) + [] == Fill(ch, len);
    }
  }

  // A byte c appended to b begins a new run.
  predicate Splits(b: seq<Byte>, c: Byte)
    decreases |b|
  {
    if b == [] then true
    else if RunOf(b) < 4 then (if RunOf(b) == |b| then b[0] != c else Splits(b[RunOf(b)..], c))
    else 5 <= |b| && Splits(b[5..], c)
  }

  lemma SplitsUnfold(b: seq<Byte>, c: Byte)
    requires b != [] && Splits(b, c)
    ensures RunOf(b) < 4 && RunOf(b) == |b| ==> b[0] != c
    ensures RunOf(b) < 4 ==> Splits(b[RunOf(b)..], c)
    ensures RunOf(b) == 4 ==> 5 <= |b| && Splits(b[5..], c)
  {
  }

  lemma RunOfAppend(b: seq<Byte>, t: seq<Byte>)
    requires b != [] && t != [] && (RunOf(b) < |b| || RunOf(b) == 4 || t[0] != b[0])
    ensures RunOf(b + t) == RunOf(b) && (b + t)[0] == b[0]
  {
    assert forall i :: 0 <= i < |b| ==> (b + t)[i] == b[i];
    assert (b + t)[|b|] == t[0];
  }

  // One run, of k bytes standing for f, in front of a cut.
  lemma SplitStep(b: seq<Byte>, t: seq<Byte>, k: nat, f: seq<Byte>)
    requires k <= |b| && Expand(b) == Prefixed(f, Expand(b[k..])) && Expand(b + t) == Prefixed(f, Expand((b + t)[k..]))
    requires !Expand(b[k..]).corrupt && Expand(b[k..] + t) == Prefixed(Expand(b[k..]).out, Expand(t))
    ensures !Expand(b).corrupt && Expand(b + t) == Prefixed(Expand(b).out, Expand(t))
  {
    hide Expand;
    assert (b + t)[k..] == b[k..] + t;
    PrefixedTwice(f, Expand(b[k..]).out, Expand(t));
  }

  /** Expansion splits where a run begins. */
  lemma {:induction false} ExpandSplit(b: seq<Byte>, t: seq<Byte>)
    requires t != [] && Splits(b, t[0])
    ensures !Expand(b).corrupt && Expand(b + t) == Prefixed(Expand(b).out, Expand(t))
    decreases |b|
  {
    hide Splits, Expand, RunOf, Fill, Prefixed;
    if b == [] {
      SplitNothing(t);
    } else {
      var r := RunOf(b);
      SplitsUnfold(b, t[0]);
      RunOfAppend(b, t);
      ExpandUnfold(b);
      ExpandUnfold(b + t);
      if r < 4 {
        ExpandSplit(b[r..], t);
        SplitStep(b, t, r, Fill(b[0], r));
      } else {
        ExpandSplit(b[5..], t);
        assert (b + t)[4] == b[4];
        SplitStep(b, t, 5, Fill(b[0], 4 + b[4] as int));
      }
    }
  }

  lemma SplitNothing(t: seq<Byte>)
    ensures !Expand([]).corrupt && Expand([] + t) == Prefixed(Expand([]).out, Expand(t))
  {
    hide Expand;
    ExpandNothing();
    assert [] + t == t;
    assert [] + Expand(t).out == Expand(t).out;
  }

  lemma ExpandNothing()
    ensures Expand([]) == Expanded([], false)
  {
  }

  lemma PrefixedTwice(a: seq<Byte>, c: seq<Byte>, e: Expanded)
    ensures Prefixed(a, Prefixed(c, e)) == Prefixed(a + c, e)
  {
    assert a + (c + e.out) == (a + c) + e.out;
  }

  // After a coded run, another byte begins a new run if it differs or the run had its count.
  lemma {:induction false} SplitsAfter(b: seq<Byte>, ch: Byte, len: nat, c: Byte)
    requires Splits(b, ch) && 1 <= len <= 255 && (c != ch || 4 <= len)
    ensures Splits(b + Pair(ch, len), c)
    decreases |b|
  {
    var t := Pair(ch, len);
    if b == [] {
      assert b + t == t;
      SplitsPair(ch, len, c);
    } else {
      var r := RunOf(b);
      SplitsUnfold(b, ch);
      hide Pair;
      RunOfAppend(b, t);
      if r < 4 {
        if r < |b| { SplitsAfter(b[r..], ch, len, c); } else { assert b[r..] == []; SplitsPair(ch, len, c);
                                                              assert [] + t == t; }
        assert (b + t)[r..] == b[r..] + t;
      } else {
        SplitsAfter(b[5..], ch, len, c);
        assert (b + t)[5..] == b[5..] + t;
      }
    }
  }

  lemma SplitsPair(ch: Byte, len: nat, c: Byte)
    requires 1 <= len <= 255 && (c != ch || 4 <= len)
    ensures Splits(Pair(ch, len), c)
  {
    var t := Pair(ch, len);
    if len >= 4 {
      assert RunOf(t) == 4 && t[5..] == [];
    } else {
      assert RunOf(t) == len == |t|;
    }
  }

  /** Appending a coded run appends the run. */
  lemma ExpandPair(b: seq<Byte>, ch: Byte, len: nat)
    requires Splits(b, ch) && 1 <= len <= 255
    ensures !Expand(b).corrupt && Expand(b + Pair(ch, len)) == Expanded(Expand(b).out + Fill(ch, len), false)
  {
    hide Splits, Expand, Pair;
    ExpandSplit(b, Pair(ch, len));
    PairExpands(ch, len);
  }

  // ----- the runs of a text

  datatype Run = Run(ch: Byte, len: int) {
    function Bytes(): seq<Byte> { if 1 <= len <= 255 then Fill(ch, len) else [] }

    function Code(): seq<Byte> { if 1 <= len <= 255 then Pair(ch, len) else [] }
  }

  // Where one run may follow another: a run stops only for another byte, or at 255.
  predicate Follows(r: Run, s: Run) {
    r.ch != s.ch || r.len == 255
  }

  ghost predicate Maximal(runs: seq<Run>) {
    && (forall i :: 0 <= i < |runs| ==> 1 <= runs[i].len <= 255)
    && forall i :: 0 <= i < |runs| - 1 ==> Follows(runs[i], runs[i + 1])
  }

  // The bytes runs stand for, and the bytes they are coded as.
  ghost function Flat(runs: seq<Run>): seq<Byte>
    decreases |runs|
  {
    if runs == [] then [] else Flat(runs[..|runs| - 1]) + runs[|runs| - 1].Bytes()
  }

  ghost function Coded(runs: seq<Run>): seq<Byte>
    decreases |runs|
  {
    if runs == [] then [] else Coded(runs[..|runs| - 1]) + runs[|runs| - 1].Code()
  }

  lemma FlatSnoc(runs: seq<Run>, ch: Byte, len: int)
    requires 1 <= len <= 255
    ensures Flat(runs + [Run(ch, len)]) == Flat(runs) + Fill(ch, len)
    ensures Coded(runs + [Run(ch, len)]) == Coded(runs) + Pair(ch, len)
  {
    assert (runs + [Run(ch, len)])[..|runs|] == runs;
  }

  lemma {:induction false} FlatCons(r: Run, runs: seq<Run>)
    requires 1 <= r.len <= 255 && forall i :: 0 <= i < |runs| ==> 1 <= runs[i].len <= 255
    ensures Flat([r] + runs) == Fill(r.ch, r.len) + Flat(runs)
    decreases |runs|
  {
    if runs == [] {
      assert [r] + runs == [r] && [r][..0] == [];
    } else {
      FlatCons(r, runs[..|runs| - 1]);
      assert ([r] + runs)[..|runs|] == [r] + runs[..|runs| - 1];
    }
  }

  lemma MaximalTail(runs: seq<Run>)
    requires Maximal(runs) && runs != []
    ensures Maximal(runs[1..]) && runs == [runs[0]] + runs[1..]
      && Flat(runs) == Fill(runs[0].ch, runs[0].len) + Flat(runs[1..])
  {
    hide Flat;
    forall i | 0 <= i < |runs[1..]| - 1
      ensures Follows(runs[1..][i], runs[1..][i + 1])
    {
      assert Follows(runs[i + 1], runs[i + 2]);
    }
    FlatCons(runs[0], runs[1..]);
  }

  // The byte behind a run is another one, unless the run has 255.
  lemma BehindRun(runs: seq<Run>)
    requires Maximal(runs) && runs != []
    ensures |Flat(runs)| >= runs[0].len && forall i :: 0 <= i < runs[0].len ==> Flat(runs)[i] == runs[0].ch
    ensures |Flat(runs)| > runs[0].len ==> Flat(runs)[runs[0].len] != runs[0].ch || runs[0].len == 255
  {
    hide Flat, Maximal;
    MaximalTail(runs);
    var more := runs[1..];
    if more != [] {
      MaximalTail(more);
      FirstTwo(runs);
      assert more[0] == runs[1];
    } else {
      FlatNothing();
    }
  }

  lemma FirstTwo(runs: seq<Run>)
    requires Maximal(runs) && runs != []
    ensures 1 <= runs[0].len <= 255 && (|runs| > 1 ==> 1 <= runs[1].len <= 255 && Follows(runs[0], runs[1]))
  {
  }

  lemma FlatNothing()
    ensures Flat([]) == [] && Coded([]) == []
  {
  }

  /** A text has only one list of maximal runs. */
  lemma {:induction false} RunsUnique(r: seq<Run>, s: seq<Run>)
    requires Maximal(r) && Maximal(s) && Flat(r) == Flat(s)
    ensures r == s
    decreases |r|
  {
    hide Flat, Maximal;
    FlatNothing();
    if r != [] { FirstTwo(r); BehindRun(r); }
    if s != [] { FirstTwo(s); BehindRun(s); }
    if r != [] && s != [] {
      MaximalTail(r);
      MaximalTail(s);
      var n := r[0].len;
      assert r[0].ch == Flat(r)[0] == s[0].ch;
      assert n == s[0].len;
      assert Flat(r)[n..] == Flat(r[1..]) && Flat(s)[n..] == Flat(s[1..]);
      RunsUnique(r[1..], s[1..]);
    }
  }

  // How many of the first bytes are equal, up to 255.
  function Leading(t: seq<Byte>, n: nat): (k: nat)
    requires 1 <= n <= |t| && n <= 255 && forall i :: 0 <= i < n ==> t[i] == t[0]
    ensures n <= k <= |t| && k <= 255 && forall i :: 0 <= i < k ==> t[i] == t[0]
    ensures k < |t| ==> k == 255 || t[k] != t[0]
    decreases 255 - n
  {
    if n < |t| && n < 255 && t[n] == t[0] then Leading(t, n + 1) else n
  }

  /** The runs of a text: as many equal bytes as there are, up to 255, and so on. */
  function RunsOf(t: seq<Byte>): (runs: seq<Run>)
    decreases |t|
  {
    if t == [] then [] else [Run(t[0], Leading(t, 1))] + RunsOf(t[Leading(t, 1)..])
  }

  lemma {:induction false} RunsOfMaximal(t: seq<Byte>)
    ensures Maximal(RunsOf(t)) && Flat(RunsOf(t)) == t
    decreases |t|
  {
    hide Flat, Maximal;
    if t == [] {
      FlatNothing();
      NoRuns();
    } else {
      var k := Leading(t, 1);
      RunsOfMaximal(t[k..]);
      assert t == Fill(t[0], k) + t[k..];
      OneMoreRun(Run(t[0], k), RunsOf(t[k..]));
    }
  }

  lemma MaximalFront(runs: seq<Run>, r: Run)
    requires Maximal(runs + [r])
    ensures Maximal(runs) && (runs != [] ==> Follows(runs[|runs| - 1], r))
  {
    hide Follows;
    var all := runs + [r];
    forall i | 0 <= i < |runs|
      ensures 1 <= runs[i].len <= 255
    {
      assert 1 <= all[i].len <= 255;
    }
    forall i | 0 <= i < |runs| - 1
      ensures Follows(runs[i], runs[i + 1])
    {
      assert Follows(all[i], all[i + 1]);
    }
    if runs != [] { assert Follows(all[|runs| - 1], all[|runs|]); }
  }

  lemma NoRuns()
    ensures Maximal([])
  {
  }

  lemma OneMoreRun(r: Run, runs: seq<Run>)
    requires Maximal(runs) && 1 <= r.len <= 255 && (runs != [] ==> Follows(r, runs[0]))
    ensures Maximal([r] + runs) && Flat([r] + runs) == Fill(r.ch, r.len) + Flat(runs)
  {
    hide Flat, Follows;
    FlatCons(r, runs);
    var s := [r] + runs;
    forall i | 0 <= i < |s| - 1
      ensures Follows(s[i], s[i + 1])
    {
      if i != 0 { assert Follows(runs[i - 1], runs[i]); }
    }
  }

  /** Maximal runs are the runs of what they stand for. */
  lemma RunsAre(runs: seq<Run>)
    requires Maximal(runs)
    ensures RunsOf(Flat(runs)) == runs
  {
    hide *;
    RunsOfMaximal(Flat(runs));
    RunsUnique(RunsOf(Flat(runs)), runs);
  }

  // The runs in the block b, which stand for out, with a pending run of len bytes ch behind them, or
  // (ch 256) the last one closed.  A run goes in only while the block is not full.
  ghost predicate RunState(runs: seq<Run>, ch: int, len: int, b: seq<Byte>, out: seq<Byte>, limit: nat) {
    && Coded(runs) == b && Flat(runs) == out
    && if 0 <= ch < 256 then
         Maximal(runs + [Run(ch, len)]) && (runs != [] ==> |Coded(runs[..|runs| - 1])| < limit)
       else Maximal(runs) && (2 <= |runs| ==> |Coded(runs[..|runs| - 2])| < limit)
  }

  lemma StateNew(ch: int, len: int, limit: nat)
    requires ch == 256 || (0 <= ch < 256 && 1 <= len <= 255)
    ensures RunState([], ch, len, [], [], limit)
  {
    FlatNothing();
  }

  // An empty block has no runs.
  lemma StateEmpty(runs: seq<Run>)
    requires Maximal(runs) && Coded(runs) == []
    ensures runs == []
  {
    hide Maximal;
    CodedSize(runs);
  }

  lemma CodedSize(runs: seq<Run>)
    requires Maximal(runs)
    ensures runs != [] ==> Coded(runs) != []
  {
    if runs != [] { assert 1 <= runs[|runs| - 1].len <= 255; }
  }

  lemma StateParts(runs: seq<Run>, ch: int, len: int, b: seq<Byte>, out: seq<Byte>, limit: nat)
    requires RunState(runs, ch, len, b, out, limit)
    ensures Coded(runs) == b && Flat(runs) == out
    ensures Maximal(if 0 <= ch < 256 then runs + [Run(ch, len)] else runs)
    ensures if 0 <= ch < 256 then runs != [] ==> |Coded(runs[..|runs| - 1])| < limit
            else 2 <= |runs| ==> |Coded(runs[..|runs| - 2])| < limit
  {
    hide Coded, Flat, Maximal;
  }

  lemma StateGrows(runs: seq<Run>, ch: Byte, len: int, b: seq<Byte>, out: seq<Byte>, limit: nat)
    requires RunState(runs, ch, len, b, out, limit) && len < 255
    ensures RunState(runs, ch, len + 1, b, out, limit)
  {
    hide Coded, Flat;
    var r, s := runs + [Run(ch, len)], runs + [Run(ch, len + 1)];
    forall i | 0 <= i < |s|
      ensures 1 <= s[i].len <= 255
    {
      assert 1 <= r[i].len <= 255;
    }
    forall i | 0 <= i < |s| - 1
      ensures Follows(s[i], s[i + 1])
    {
      assert Follows(r[i], r[i + 1]);
    }
  }

  // The pending run goes into the block.
  lemma StateFlushed(runs: seq<Run>, ch: Byte, len: int, b: seq<Byte>, out: seq<Byte>, limit: nat)
    requires RunState(runs, ch, len, b, out, limit)
    ensures 1 <= len <= 255
    ensures RunState(runs + [Run(ch, len)], 256, 0, b + Pair(ch, len), out + Fill(ch, len), limit)
  {
    var r := runs + [Run(ch, len)];
    assert 1 <= r[|runs|].len <= 255;
    FlatSnoc(runs, ch, len);
    assert 2 <= |r| ==> r[..|r| - 2] == runs[..|runs| - 1];
  }

  // The pending run goes into the block and another begins.
  lemma StateNext(runs: seq<Run>, ch: Byte, len: int, b: seq<Byte>, out: seq<Byte>, limit: nat, c: Byte)
    requires RunState(runs, ch, len, b, out, limit) && |b| < limit && (c != ch || len == 255)
    ensures 1 <= len <= 255
    ensures RunState(runs + [Run(ch, len)], c, 1, b + Pair(ch, len), out + Fill(ch, len), limit)
  {
    hide Coded, Flat;
    var r := runs + [Run(ch, len)];
    var s := r + [Run(c, 1)];
    assert 1 <= r[|runs|].len <= 255;
    FlatSnoc(runs, ch, len);
    assert r[..|r| - 1] == runs;
    forall i | 0 <= i < |s| - 1
      ensures Follows(s[i], s[i + 1])
    {
      if i < |runs| { assert Follows(r[i], r[i + 1]); }
    }
  }

  // ----- the state of the front end

  // Bytes in use are exactly the bytes of the block.
  predicate UsedBy(used: seq<bool>, b: seq<Byte>) {
    |used| == 256 && forall x: int :: 0 <= x < 256 ==> (used[x] <==> x in b)
  }

  lemma UsedMore(used: seq<bool>, b: seq<Byte>, ch: Byte, len: nat)
    requires UsedBy(used, b) && 1 <= len <= 255
    ensures var u := used[ch := true]; UsedBy(if len < 4 then u else u[len - 4 := true], b + Pair(ch, len))
  {
    var t := Pair(ch, len);
    var u := used[ch := true];
    var u' := if len < 4 then u else u[len - 4 := true];
    forall x: int | 0 <= x < 256
      ensures u'[x] <==> x in b + t
    {
      assert x in b + t <==> x in b || x in t;
      assert x in t <==> x == ch || (4 <= len && x == len - 4) by {
        assert t[0] == ch;
        if 4 <= len { assert t[4] == len - 4; }
      }
    }
  }

  class FrontEnd {
    const block: array<Byte>
    const inUse: array<bool>
    const limit: nat             // nblockMAX
    var nblock: nat
    var blockCRC: nat
    var stateInCh: int           // 256 when no run is pending
    var stateInLen: int
    ghost var runs: seq<Run>     // those in the block

    ghost predicate Valid()
      reads this, block, inUse
    {
      && inUse.Length == 256 && limit + 10 <= block.Length && nblock <= limit + 9
      && UsedBy(inUse[..], block[..nblock]) && !Expand(block[..nblock]).corrupt
      && blockCRC < Gf2.TOP32 && blockCRC == Crc.Update(Crc.CRC_INIT, Expand(block[..nblock]).out)
      && ((stateInCh == 256 && stateInLen == 0)
          || (0 <= stateInCh < 256 && 1 <= stateInLen <= 255 && Splits(block[..nblock], stateInCh)))
      && RunState(runs, stateInCh, stateInLen, block[..nblock], Expand(block[..nblock]).out, limit)
    }

    // All runs held, the pending one included.
    ghost function AllRuns(): seq<Run>
      reads this
    {
      runs + PendingRuns()
    }

    ghost function PendingRuns(): seq<Run>
      reads this
    {
      if 0 <= stateInCh < 256 then [Run(stateInCh, stateInLen)] else []
    }

    // What the block itself is, and where it was not yet full.
    lemma BlockRuns()
      requires Valid()
      ensures RunsOf(Expand(block[..nblock]).out) == runs && block[..nblock] == Coded(runs)
      ensures nblock == 0 <==> runs == []
      ensures stateInCh == 256 ==> (2 <= |runs| ==> |Coded(runs[..|runs| - 2])| < limit)
      ensures stateInCh < 256 && runs != [] ==>
        |Coded(runs[..|runs| - 1])| < limit && Follows(runs[|runs| - 1], Run(stateInCh, stateInLen))
    {
      hide Crc.Update, UsedBy, Expand, Splits, Coded, Flat, Maximal, RunState, RunsOf;
      StateParts(runs, stateInCh, stateInLen, block[..nblock], Expand(block[..nblock]).out, limit);
      if stateInCh < 256 { MaximalFront(runs, Run(stateInCh, stateInLen)); }
      RunsAre(runs);
      CodedSize(runs);
      FlatNothing();
    }

    /** The block and the pending run are the run-length coding of what they hold, and the only one: what is
        in the block are the runs of Held(), but for the last if that is pending. */
    lemma Canonical()
      requires Valid()
      ensures AllRuns() == RunsOf(Held()) && block[..nblock] == Coded(runs)
      ensures runs == if stateInCh == 256 then RunsOf(Held()) else RunsOf(Held())[..|RunsOf(Held())| - 1]
      ensures stateInCh < 256 ==> RunsOf(Held()) != [] && RunsOf(Held())[|runs|] == Run(stateInCh, stateInLen)
    {
      hide Crc.Update, UsedBy, Expand, Splits, Coded, Flat, Maximal, RunState, RunsOf;
      StateParts(runs, stateInCh, stateInLen, block[..nblock], Expand(block[..nblock]).out, limit);
      if stateInCh < 256 {
        FlatSnoc(runs, stateInCh, stateInLen);
      } else {
        assert runs + [] == runs && Expand(block[..nblock]).out + [] == Expand(block[..nblock]).out;
      }
      RunsAre(AllRuns());
    }

    // The bytes the block and the pending run stand for.
    ghost function Held(): seq<Byte>
      requires Valid()
      reads this, block, inUse
    {
      Expand(block[..nblock]).out + Pending()
    }

    ghost function Pending(): seq<Byte>
      reads this
    {
      if 0 <= stateInCh < 256 && 0 <= stateInLen then Fill(stateInCh, stateInLen) else []
    }

    constructor (arr2: array<Byte>, level: int)
      requires 1 <= level <= 9 && 100000 * level - 9 <= arr2.Length
      ensures Valid() && block == arr2 && limit == 100000 * level - 19 && fresh(inUse) && nblock == 0
        && stateInCh == 256 && Held() == []
    {
      hide Crc.Update, UsedBy;
      block, limit, nblock, stateInCh, stateInLen, blockCRC := arr2, 100000 * level - 19, 0, 256, 0, 0xffff_ffff;
      inUse := new bool[256](_ => false);
      runs := [];
      new;
      StateNew(256, 0, limit);
      EmptyBlock(inUse[..]);
      assert block[..0] == [];
    }

    /** prepare_new_block: the block is emptied; a run that is pending stays so. */
    method PrepareNewBlock()
      requires Valid()
      modifies this`nblock, this`blockCRC, this`runs, inUse
      ensures Valid() && nblock == 0 && Held() == old(Pending()) && Pending() == old(Pending()) && runs == []
    {
      hide Crc.Update, UsedBy, Expand, RunState;
      StateNew(stateInCh, stateInLen, limit);
      runs := [];
      nblock := 0;
      blockCRC := 0xffff_ffff;
      var i := 0;
      while i < 256
        invariant nblock == 0 && blockCRC == 0xffff_ffff && runs == []
        invariant 0 <= i <= 256 && forall k :: 0 <= k < i ==> !inUse[k]
      {
        inUse[i] := false;
        i := i + 1;
      }
      EmptyBlock(inUse[..]);
      assert block[..0] == [];
      assert [] + Pending() == Pending();
    }

    // The CRC of a run: batched from eight bytes on.
    method RunCrc(ch: Byte, len: nat, accelerated: bool) returns (crc: nat)
      requires blockCRC < Gf2.TOP32
      ensures crc == Crc.Update(blockCRC, Fill(ch, len)) && crc < Gf2.TOP32
    {
      hide *;
      if len >= 8 {
        crc := CC.UpdateBuffer(blockCRC, Fill(ch, len), 0, accelerated);
      } else {
        crc := blockCRC;
        Crc.UpdateNothing(blockCRC, Fill(ch, 0));
        var i := 0;
        while i < len
          invariant 0 <= i <= len && crc == Crc.Update(blockCRC, Fill(ch, i)) && crc < Gf2.TOP32
        {
          Crc.UpdateSnoc(blockCRC, Fill(ch, i), ch);
          assert Fill(ch, i + 1) == Fill(ch, i) + [ch];
          crc := Crc.UpdateByte(crc, ch);
          i := i + 1;
        }
      }
    }

    // The switch of add_pair_to_block: store the coded run.
    method StorePair(ch: Byte, len: nat)
      requires 1 <= len <= 255 && nblock + 5 <= block.Length
      modifies this`nblock, block
      ensures nblock == old(nblock) + |Pair(ch, len)| <= old(nblock) + 5
        && block[..nblock] == old(block[..nblock]) + Pair(ch, len)
    {
      ghost var b := block[..nblock];
      if len == 1 {
        block[nblock] := ch; nblock := nblock + 1;
      } else if len == 2 {
        block[nblock] := ch; nblock := nblock + 1;
        block[nblock] := ch; nblock := nblock + 1;
      } else if len == 3 {
        block[nblock] := ch; nblock := nblock + 1;
        block[nblock] := ch; nblock := nblock + 1;
        block[nblock] := ch; nblock := nblock + 1;
      } else {
        block[nblock] := ch; nblock := nblock + 1;
        block[nblock] := ch; nblock := nblock + 1;
        block[nblock] := ch; nblock := nblock + 1;
        block[nblock] := ch; nblock := nblock + 1;
        block[nblock] := len - 4;
        nblock := nblock + 1;
      }
    }

    /** add_pair_to_block: the pending run moves into the block, the CRC and the in-use flags. */
    method AddPair(accelerated: bool)
      requires Valid() && stateInCh < 256 && nblock + 5 <= limit + 9
      modifies this`nblock, this`blockCRC, block, inUse
      ensures nblock <= old(nblock) + 5 && nblock <= limit + 9 && inUse.Length == 256 && limit + 10 <= block.Length
      ensures UsedBy(inUse[..], block[..nblock]) && Expand(block[..nblock]) == Expanded(old(Held()), false)
      ensures blockCRC < Gf2.TOP32 && blockCRC == Crc.Update(Crc.CRC_INIT, old(Held()))
      ensures forall c: Byte :: c != stateInCh || 4 <= stateInLen ==> Splits(block[..nblock], c)
      ensures block[..nblock] == old(block[..nblock]) + Pair(stateInCh, stateInLen)
    {
      hide Crc.Update, UsedBy, Expand, Splits, Pair, RunState;
      var ch: Byte := stateInCh;
      ghost var b, e := block[..nblock], Expand(block[..nblock]).out;
      ExpandPair(b, ch, stateInLen);
      UsedMore(inUse[..], b, ch, stateInLen);
      Crc.UpdateConcat(Crc.CRC_INIT, e, Fill(ch, stateInLen)) by { Crc.InitBound(); }
      Crc.InitBound();
      blockCRC := RunCrc(ch, stateInLen, accelerated);
      inUse[stateInCh] := true;
      if stateInLen >= 4 { inUse[stateInLen - 4] := true; }
      assert inUse[..] == (var u := old(inUse[..])[ch := true];
                           if stateInLen < 4 then u else u[stateInLen - 4 := true]);
      StorePair(ch, stateInLen);
      forall c: Byte | c != stateInCh || 4 <= stateInLen
        ensures Splits(block[..nblock], c)
      {
        SplitsAfter(b, ch, stateInLen, c);
      }
    }

    /** flush_RL */
    method FlushRL(accelerated: bool)
      requires Valid() && nblock <= limit + 4
      modifies this`nblock, this`blockCRC, this`stateInCh, this`stateInLen, this`runs, block, inUse
      ensures Valid() && Held() == old(Held()) && stateInCh == 256 && Expand(block[..nblock]) == Expanded(Held(), false)
      ensures runs == old(AllRuns())
    {
      hide Crc.Update, UsedBy, Expand, Splits, Pair, RunState;
      if stateInCh < 256 {
        StateFlushed(runs, stateInCh, stateInLen, block[..nblock], Expand(block[..nblock]).out, limit);
        AddPair(accelerated);
        runs := runs + [Run(stateInCh, stateInLen)];
      } else {
        assert Expand(block[..nblock]).out + [] == Expand(block[..nblock]).out && runs + [] == runs;
      }
      stateInCh := 256;
      stateInLen := 0;
      assert Held() == Expand(block[..nblock]).out + [];
    }

    /** ADD_CHAR_TO_BLOCK: one more byte is held; at most five bytes go into the block. */
    method AddChar(zchh: Byte, accelerated: bool)
      requires Valid() && nblock < limit && (stateInCh == 256 ==> nblock == 0)
      modifies this`nblock, this`blockCRC, this`stateInCh, this`stateInLen, this`runs, block, inUse
      ensures Valid() && Held() == old(Held()) + [zchh] && stateInCh < 256 && nblock <= old(nblock) + 5
      ensures AllRuns() == RunsOf(Held()) && block[..nblock] == Coded(RunsOf(Held())[..|RunsOf(Held())| - 1])
      ensures AllRuns() != [] && (old(AllRuns()) != [] ==> AllRuns()[0].ch == old(AllRuns()[0].ch))
    {
      hide Crc.Update, UsedBy, Expand, Splits, Pair, RunState, RunsOf, Coded;
      ghost var all := AllRuns();
      if zchh != stateInCh && stateInLen == 1 {
        OneMore(zchh);
      } else if zchh != stateInCh || stateInLen == 255 {
        if stateInCh < 256 {
          StateNext(runs, stateInCh, stateInLen, block[..nblock], Expand(block[..nblock]).out, limit, zchh);
          AddPair(accelerated);
          runs := runs + [Run(stateInCh, stateInLen)];
        } else {
          StateParts(runs, stateInCh, stateInLen, block[..nblock], Expand(block[..nblock]).out, limit);
          StateEmpty(runs);
          StateNew(zchh, 1, limit);
          assert block[..0] == [];
          SplitsNothing(zchh);
          assert Held() == [] by { ExpandNothing(); }
        }
        stateInCh := zchh;
        stateInLen := 1;
        assert Fill(zchh, 1) == [zchh];
        ExpandNothing();
      } else {
        assert Fill(zchh, stateInLen) + [zchh] == Fill(zchh, stateInLen + 1);
        HeldGrows(Expand(block[..nblock]).out, Fill(zchh, stateInLen), zchh);
        StateGrows(runs, zchh, stateInLen, block[..nblock], Expand(block[..nblock]).out, limit);
        stateInLen := stateInLen + 1;
      }
      assert all != [] ==> AllRuns()[0].ch == all[0].ch;
      Canonical();
    }

    // The fast track: a run of one ends.
    method OneMore(zchh: Byte)
      requires Valid() && nblock < limit && zchh != stateInCh && stateInLen == 1
      modifies this`nblock, this`blockCRC, this`stateInCh, this`runs, block, inUse
      ensures Valid() && Held() == old(Held()) + [zchh] && stateInCh < 256 && nblock <= old(nblock) + 5
      ensures AllRuns() == old(AllRuns()) + [Run(zchh, 1)]
    {
      hide Crc.Update, UsedBy, Expand, Splits, RunState;
      var ch: Byte := stateInCh;
      ghost var b, e := block[..nblock], Expand(block[..nblock]).out;
      assert Pair(ch, 1) == [ch] == Fill(ch, 1);
      hide Pair;
      Crc.InitBound();
      ExpandPair(b, ch, 1);
      UsedMore(inUse[..], b, ch, 1);
      SplitsAfter(b, ch, 1, zchh);
      Crc.UpdateSnoc(Crc.CRC_INIT, e, ch);
      blockCRC := Crc.UpdateByte(blockCRC, ch);
      inUse[stateInCh] := true;
      assert inUse[..] == old(inUse[..])[ch := true];
      block[nblock] := ch;
      nblock := nblock + 1;
      assert block[..nblock] == b + [ch];
      StateNext(runs, ch, 1, b, e, limit, zchh);
      runs := runs + [Run(ch, 1)];
      stateInCh := zchh;
      assert Fill(zchh, 1) == [zchh];
    }
  }

  lemma EmptyBlock(used: seq<bool>)
    requires |used| == 256 && forall k :: 0 <= k < 256 ==> !used[k]
    ensures UsedBy(used, []) && Expand([]) == Expanded([], false)
    ensures Crc.CRC_INIT < Gf2.TOP32 && Crc.Update(Crc.CRC_INIT, []) == 0xffff_ffff
    ensures forall c: Byte :: Splits([], c)
  {
  }

  lemma SplitsNothing(c: Byte)
    ensures Splits([], c)
  {
  }

  lemma HeldGrows(a: seq<Byte>, p: seq<Byte>, c: Byte)
    ensures a + (p + [c]) == a + p + [c]
  {
  }
}
