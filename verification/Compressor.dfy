/**
 The compression machine (BZ2_bzCompress, handle_compress, BZ2_compressBlock): under
 any legal calls with any buffer sizes, what has been printed and what is pending
 together stand for exactly the bytes consumed.
 */
module Compressor {
  import opened Bits
  import opened Codes
  import opened Parser
  import opened Printer
  import opened BitWriter
  import opened Expansion
  import opened St = Stream
  import BC = BlockCompress
  import Cut = Cutting
  import RL = RunLength
  import Rotations
  import Crc
  import Gf2

  datatype Mode = Idle | Running | Flushing | Finishing
  datatype Phase = InInput | InOutput
  datatype Action = Run | Flush | Finish
  datatype Reply = RunOk | FlushOk | FinishOk | StreamEnd | SequenceError | ParamError

  // ----- one more block at the end

  lemma {:induction false} TextsSnoc(recs: seq<Rec>, r: Rec)
    ensures Texts(recs + [r]) == Texts(recs) + Expand(r.text).out
    decreases |recs|
  {
    hide Expand;
    if recs == [] {
      assert [r][1..] == [];
      assert Texts([r]) == Expand(r.text).out + Texts([]);
    } else {
      TextsSnoc(recs[1..], r);
      assert (recs + [r])[1..] == recs[1..] + [r];
    }
  }

  lemma GoodSnoc(level: int, recs: seq<Rec>, r: Rec)
    requires GoodRecs(level, recs) && GoodRec(level, r)
    ensures GoodRecs(level, recs + [r])
  {
    hide GoodRec;
  }

  lemma {:induction false} BlocksSnoc(level: int, recs: seq<Rec>, r: Rec)
    requires GoodRecs(level, recs) && GoodRec(level, r) && GoodRecs(level, recs + [r])
    requires |r.x.used| == 256 && (forall k :: 0 <= k < |r.x.sel| ==> 0 <= r.x.sel[k] < |r.x.lens|)
    requires (forall t :: 0 <= t < |r.x.lens| ==> ValidLens(r.x.lens[t])) && Codable(r.x.lens, r.x.sel, r.x.syms)
    ensures BlocksBits(level, recs + [r]) == BlocksBits(level, recs) + BlockBits(r.x)
    decreases |recs|
  {
    hide *;
    var all := recs + [r];
    BlocksCases(level, all, []);
    BlocksCases(level, recs, BlockBits(r.x));
    BlocksCases(level, recs, []);
    NoTail(BlocksBits(level, all));
    if recs == [] {
      assert all == [r] && all[1..] == [];
      BlocksCases(level, [], []);
      NoTail(BlocksBits(level, []));
      NoTail(BlockBits(r.x));
    } else {
      assert all[1..] == recs[1..] + [r] && all[0] == recs[0];
      BlocksSnoc(level, recs[1..], r);
      NoTail(BlocksBits(level, all[1..]));
    }
  }

  // ----- stream header and trailer

  method PutStreamHeader(w: Writer, level: int)
    requires w.Valid() && 32 <= w.Room() && 1 <= level <= 9
    modifies w, w.arr2
    ensures w.Valid() && w.Emitted() == old(w.Emitted()) + StreamHeaderBits(level) && w.Room() == old(w.Room()) - 32
    ensures w.zbase == old(w.zbase) && w.zbase <= w.arr2.Length && w.arr2[..w.zbase] == old(w.arr2[..w.zbase])
  {
    hide Holds, ToBits, BytesToBits, Pow2;
    BC.Pow8();
    HeaderOrder(w.Emitted(), level);
    w.PutBits(8, 0x42);
    w.PutBits(8, 0x5a);
    w.PutBits(8, 0x68);
    w.PutBits(8, 0x30 + level);
  }

  lemma HeaderOrder(e: seq<bool>, level: int)
    requires 1 <= level <= 9
    ensures e + StreamHeaderBits(level) == e + ToBits(0x42, 8) + ToBits(0x5a, 8) + ToBits(0x68, 8)
      + ToBits(0x30 + level, 8)
  {
    hide ToBits;
  }

  method PutTrailer(w: Writer, crc: nat)
    requires w.Valid() && 80 <= w.Room() && crc < 0x1_0000_0000
    modifies w, w.arr2
    ensures w.Valid() && w.Emitted() == old(w.Emitted()) + TrailerBits(crc)
    ensures w.zbase == old(w.zbase) && w.zbase <= w.arr2.Length && w.arr2[..w.zbase] == old(w.arr2[..w.zbase])
  {
    hide Holds, ToBits, BytesToBits, Pow2;
    BC.Pow8();
    EndMagicOrder(w.Emitted());
    ghost var e := w.Emitted();
    w.PutBits(8, 0x17);
    w.PutBits(8, 0x72);
    w.PutBits(8, 0x45);
    w.PutBits(8, 0x38);
    w.PutBits(8, 0x50);
    w.PutBits(8, 0x90);
    hide EndMagicBits, U32Bits;
    BC.PutUInt32(w, crc);
    BC.WriterFacts(w);
    Joins(e, EndMagicBits(0), U32Bits(crc));
  }

  lemma EndMagicOrder(e: seq<bool>)
    ensures e + EndMagicBits(0) == e + ToBits(0x17, 8) + ToBits(0x72, 8) + ToBits(0x45, 8) + ToBits(0x38, 8)
      + ToBits(0x50, 8) + ToBits(0x90, 8)
  {
    hide ToBits;
    assert EndMagicBits(6) == [];
    assert EndMagicBits(5) == ToBits(0x90, 8) + [];
    assert EndMagicBits(4) == ToBits(0x50, 8) + EndMagicBits(5);
    assert EndMagicBits(3) == ToBits(0x38, 8) + EndMagicBits(4);
    assert EndMagicBits(2) == ToBits(0x45, 8) + EndMagicBits(3);
    assert EndMagicBits(1) == ToBits(0x72, 8) + EndMagicBits(2);
    assert EndMagicBits(0) == ToBits(0x17, 8) + EndMagicBits(1);
  }

  // ----- the machine

  class Machine {
    const level: int
    const arr2: array<Byte>
    const fe: RL.FrontEnd
    const w: Writer
    var mode: Mode
    var state: Phase
    var availInExpect: nat
    var blockNo: nat
    var combinedCRC: nat
    var stateOutPos: nat
    var output: seq<Byte>          // everything handed to the caller
    ghost var recs: seq<Rec>       // blocks compressed so far
    ghost var early: seq<bool>     // which of them a flush or the end of the stream ended
    ghost var consumed: seq<Byte>  // everything taken from the caller
    ghost var flushed: seq<Byte>   // output of blocks that have been dealt with
    ghost var closed: bool         // the trailer has been written
    ghost var pad: nat

    ghost predicate Core()
      reads this`recs, this`early, this`combinedCRC, this`blockNo, fe, fe.inUse, fe.block
    {
      && 1 <= level <= 9 && fe.block == arr2 == w.arr2 && arr2.Length == 4 * (100000 * level + 34)
        && fe.limit == 100000 * level - 19
      && fe.inUse as object != arr2 && fe.Valid() && GoodRecs(level, recs)
      && (forall i :: 0 <= i < |recs| ==> recs[i].x.crc < Gf2.TOP32)
      && combinedCRC < Gf2.TOP32 && combinedCRC == Combined(recs, 0) && 1 <= blockNo
      && Cut.CutAll(recs, early, fe.limit)
    }

    // What has been printed so far.
    ghost predicate Printed(started: bool)
      requires GoodRecs(level, recs)
      reads this`recs, this`early, this`flushed, w, w.arr2
    {
      && w.Valid()
      && if started then BytesToBits(flushed) + w.Emitted() == StreamHeaderBits(level) + BlocksBits(level, recs)
         else flushed == [] && w.Emitted() == [] && recs == []
    }

    // The whole stream lies in the output, ready or pending.
    ghost predicate Ended()
      requires GoodRecs(level, recs)
      reads this`recs, this`early, this`flushed, this`pad, w, w.arr2
    {
      && w.zbase + w.numZ <= w.arr2.Length && pad < 8
      && BytesToBits(flushed + w.arr2[w.zbase..w.zbase + w.numZ]) == StreamBits(level, recs) + ToBits(0, pad)
    }

    // isempty_RL
    predicate IsEmptyRL()
      reads fe
    {
      !(fe.stateInCh < 256 && fe.stateInLen > 0)
    }

    // The trailer comes last and only when finishing.
    ghost predicate PrintedOk()
      requires GoodRecs(level, recs)
      reads this`recs, this`early, this`flushed, this`pad, this`closed, this`state, this`mode, this`blockNo, fe, w,
        w.arr2
    {
      if closed then state == InOutput && IsEmptyRL() && (mode == Finishing || mode == Idle) && Ended()
      else mode != Idle && Printed(blockNo > 1 || state == InOutput)
    }

    // While taking input: blocks, block in hand and pending run make up what was consumed.
    ghost predicate TakingInput()
      requires fe.Valid()
      reads this`recs, this`early, this`consumed, this`stateOutPos, fe, fe.inUse, fe.block, w
    {
      && Texts(recs) + fe.Held() == consumed && fe.nblock < fe.limit && w.numZ == 0 && stateOutPos == 0
      && (fe.stateInCh == 256 ==> fe.nblock == 0) && Cut.Carried(recs, early, fe.AllRuns())
    }

    // While giving output: the block in hand is among the blocks already.
    ghost predicate GivingOutput()
      reads this`recs, this`early, this`consumed, this`availInExpect, this`mode, this`closed, fe
    {
      && Texts(recs) + fe.Pending() == consumed && Cut.Carried(recs, early, fe.PendingRuns())
      && (IsEmptyRL() ==> availInExpect == 0 && mode != Running && (closed <==> (mode == Finishing || mode == Idle)))
    }

    ghost predicate OutputOk()
      reads this`stateOutPos, this`output, this`flushed, this`mode, w, w.arr2
    {
      && stateOutPos <= w.numZ && w.zbase + w.numZ <= w.arr2.Length
      && output == flushed + w.arr2[w.zbase..w.zbase + stateOutPos]
      && (mode == Idle ==> stateOutPos == w.numZ)
    }

    ghost predicate Valid()
      reads this, fe, fe.inUse, fe.block, w, w.arr2, arr2
    {
      Core() && PrintedOk() && OutputOk() && if state == InInput then TakingInput() else GivingOutput()
    }

    /** BZ2_bzCompressInit */
    constructor (blockSize100k: int)
      requires 1 <= blockSize100k <= 9
      ensures Resting() && mode == Running && consumed == [] && output == [] && level == blockSize100k
    {
      hide *;
      level := blockSize100k;
      var n := 100000 * blockSize100k;
      var a := new Byte[4 * (n + 34)];
      arr2 := a;
      fe := new RL.FrontEnd(a, blockSize100k);
      w := new Writer(a);
      mode, state, availInExpect, blockNo, combinedCRC, stateOutPos, output := Running, InInput, 0, 1, 0, 0, [];
      recs, early, consumed, flushed, closed, pad := [], [], [], [], false, 0;
      new;
      FirstState();
    }

    lemma FirstState()
      requires 1 <= level <= 9 && fe.block == arr2 == w.arr2 && arr2.Length == 4 * (100000 * level + 34)
      requires fe.limit == 100000 * level - 19 && fe.inUse as object != arr2 && fe.Valid() && fe.nblock == 0
      requires fe.stateInCh == 256 && fe.Held() == [] && w.Valid() && w.Emitted() == [] && w.numZ == 0 && w.zbase == 0
      requires mode == Running && state == InInput && blockNo == 1 && combinedCRC == 0 && stateOutPos == 0
      requires output == [] && recs == [] && early == [] && consumed == [] && flushed == [] && !closed
      ensures Resting()
    {
      hide Combined, BlocksBits, StreamBits, Texts, RL.FrontEnd.Valid, RL.FrontEnd.Held, Cut.CutAll, Cut.Carried,
        RL.FrontEnd.AllRuns, Holds, ToBits, BytesToBits, GoodRec;
      NoBlocks(level);
      Cut.CutNone(fe.limit, fe.AllRuns());
      assert Texts([]) + fe.Held() == [];
      assert [] + w.arr2[0..0] == [];
    }

    // The bits so far are header and blocks, and there is room for one more block.
    ghost predicate Started()
      requires GoodRecs(level, recs)
      reads this`recs, this`early, this`flushed, fe, w, w.arr2
    {
      && w.Valid() && w.zbase == fe.nblock && 17 * fe.nblock + 159612 <= w.Room()
      && BytesToBits(flushed) + w.Emitted() == StreamHeaderBits(level) + BlocksBits(level, recs)
    }

    // Sort the block, point zbits behind it, and on the first block write the stream header.
    method StartBlock() returns (ptr: array<int>, origPtr: nat)
      requires Core() && Printed(blockNo > 1) && w.numZ == 0 && fe.nblock <= 100000 * level - 10
      modifies w, arr2
      ensures Core() && arr2[..fe.nblock] == old(arr2[..fe.nblock]) && Started() && fresh(ptr)
      ensures fe.nblock > 0 ==>
        ptr.Length == fe.nblock && Rotations.SortsRotations(arr2[..fe.nblock], ptr[..]) && origPtr < fe.nblock
          && ptr[origPtr] == 0
    {
      hide Combined, BlocksBits, StreamBits, Texts, Expand, RL.UsedBy, RL.Splits, RL.RunState, Cut.CutAll,
        Cut.Carried, RL.RunsOf, RL.Coded, Crc.Update, Holds, ToBits, BytesToBits, GoodRec, StreamHeaderBits,
        Rotations.SortsRotations, GoodRecs;
      ptr, origPtr := new int[0], 0;
      StillEmpty(w);
      if fe.nblock > 0 {
        ptr, origPtr := BC.SortBlock(arr2, fe.nblock, arr2[..fe.nblock]);
        StillEmpty(w);
      }
      OpenBlock();
    }

    method OpenBlock()
      requires Core() && Printed(blockNo > 1) && w.numZ == 0 && fe.nblock <= 100000 * level - 10
      modifies w, arr2
      ensures Core() && arr2[..fe.nblock] == old(arr2[..fe.nblock]) && Started()
    {
      hide Combined, BlocksBits, StreamBits, Texts, Expand, RL.UsedBy, RL.Splits, RL.RunState, Cut.CutAll,
        Cut.Carried, RL.RunsOf, RL.Coded, Crc.Update, Holds, ToBits, BytesToBits, GoodRec, StreamHeaderBits, GoodRecs;
      w.Rebase(fe.nblock);
      if blockNo == 1 {
        w.InitWrite();
        PutStreamHeader(w, level);
        HeaderOnly(level, flushed, w.Emitted());
      }
    }

    lemma CoreArrays()
      requires Core()
      ensures fe.block == arr2 == w.arr2 && fe.nblock <= arr2.Length && fe.Valid() && GoodRecs(level, recs)
      ensures fe.Held() == Expand(arr2[..fe.nblock]).out + fe.Pending()
      ensures w.Valid() ==> w.zbase + w.numZ <= arr2.Length
      ensures |early| == |recs|
    {
      hide Combined, Expand, RL.UsedBy, RL.Splits, RL.RunState, Cut.CutWell, Crc.Update, GoodRecs,
        RL.FrontEnd.Pending, Holds;
    }

    lemma StartedIs()
      requires Core() && Started()
      ensures w.Valid() && w.zbase == fe.nblock && 17 * fe.nblock + 159612 <= w.Room() && Printed(true)
      ensures BytesToBits(flushed) + w.Emitted() == StreamHeaderBits(level) + BlocksBits(level, recs)
    {
      hide Core, BlocksBits, StreamHeaderBits, BytesToBits, Holds, ToBits;
    }

    lemma EndedRoom()
      requires GoodRecs(level, recs) && Ended()
      ensures w.zbase + w.numZ <= w.arr2.Length
    {
      hide StreamBits, BytesToBits, ToBits;
    }

    lemma PrintedValid()
      requires Core() && Printed(true)
      ensures w.Valid()
    {
      hide Core, BlocksBits, StreamHeaderBits, BytesToBits, Holds, ToBits;
    }

    // The block with its CRC, combined CRC and bits, after the header if it is the first.
    method CompressBlock(isLast: bool, ghost e: bool)
      requires Core() && !closed && Printed(blockNo > 1) && w.numZ == 0 && fe.nblock <= 100000 * level - 10
      requires 0 < fe.nblock ==>
        Cut.CutWell(arr2[..fe.nblock], fe.limit, e)
        && Cut.Carried(recs, early, Cut.RunsIn(arr2[..fe.nblock]))
      modifies this`combinedCRC, this`recs, this`early, this`closed, this`pad, w, arr2
      ensures Core() && Texts(recs) == old(Texts(recs)) + old(Expand(arr2[..fe.nblock]).out)
      ensures fe.Held() == old(fe.Held()) && arr2[..fe.nblock] == old(arr2[..fe.nblock])
      ensures if fe.nblock == 0 then recs == old(recs) && early == old(early)
              else Cut.AddsBlock(old(recs), old(early), recs, early, arr2[..fe.nblock], e)
      ensures closed == isLast && w.zbase + w.numZ <= arr2.Length
      ensures if isLast then Ended() && 0 < w.numZ else Printed(true)
    {
      hide *;
      CoreArrays();
      ghost var text := arr2[..fe.nblock];
      var ptr, origPtr := StartBlock();
      StartedIs();
      if fe.nblock > 0 {
        AddBlock(ptr, origPtr, text, e);
      } else {
        NothingExpands(text);
        assert Texts(recs) + [] == Texts(recs);
      }
      closed := isLast;
      CoreArrays();
      PrintedValid();
      if isLast {
        EndStream();
        CoreArrays();
        EndedRoom();
      }
    }

    // The bits of the block in hand.
    method WriteBlock(ptr: array<int>, origPtr: nat, ghost text: seq<Byte>) returns (ghost r: Rec, blockCRC: nat)
      requires Core() && 1 <= fe.nblock <= 100000 * level - 10 && text == arr2[..fe.nblock] && w.zbase == fe.nblock
        && w.Valid()
      requires ptr.Length == fe.nblock && Rotations.SortsRotations(text, ptr[..]) && origPtr < fe.nblock
        && ptr[origPtr] == 0
      requires 17 * fe.nblock + 159612 <= w.Room() && ptr as object != arr2
      modifies w, arr2
      ensures Core() && w.Valid() && w.zbase == fe.nblock <= arr2.Length && arr2[..fe.nblock] == text && 80 <= w.Room()
      ensures GoodRec(level, r) && r.text == text && r.x.crc == blockCRC < Gf2.TOP32 && 1 <= level <= 9
      ensures |r.x.used| == 256 && (forall k :: 0 <= k < |r.x.sel| ==> 0 <= r.x.sel[k] < |r.x.lens|)
      ensures (forall t :: 0 <= t < |r.x.lens| ==> ValidLens(r.x.lens[t])) && Codable(r.x.lens, r.x.sel, r.x.syms)
      ensures w.Emitted() == old(w.Emitted()) + BlockBits(r.x)
    {
      hide Combined, BlocksBits, StreamBits, Texts, Expand, RL.UsedBy, RL.Splits, RL.RunState, Cut.CutAll, Crc.Update,
        Holds, ToBits, BytesToBits, GoodRec, Combine, BlockBits, Codable, ValidLens, Rotations.SortsRotations,
        GoodRecs, BC.TablesChosen;
      blockCRC := Finalised(fe.blockCRC);
      FinalIsCrc(fe.blockCRC, Expand(text).out);
      r := BC.PrintBlock(w, fe.inUse, ptr, origPtr, fe.nblock, blockCRC, level, text);
      GoodPrintable(level, r);
      GoodIsCrc(level, r);
    }

    // The block goes to the combined CRC and the record.
    method Record(ghost r: Rec, blockCRC: nat, ghost e: bool)
      requires Core() && w.Valid() && GoodRec(level, r) && r.x.crc == blockCRC < Gf2.TOP32
      requires |r.x.used| == 256 && (forall k :: 0 <= k < |r.x.sel| ==> 0 <= r.x.sel[k] < |r.x.lens|)
      requires (forall t :: 0 <= t < |r.x.lens| ==> ValidLens(r.x.lens[t])) && Codable(r.x.lens, r.x.sel, r.x.syms)
      requires BytesToBits(flushed) + w.Emitted()
        == StreamHeaderBits(level) + (BlocksBits(level, recs) + BlockBits(r.x))
      requires Cut.CutWell(r.text, fe.limit, e) && Cut.Carried(recs, early, Cut.RunsIn(r.text))
      modifies this`combinedCRC, this`recs, this`early
      ensures Core() && Texts(recs) == old(Texts(recs)) + Expand(r.text).out && Printed(true)
      ensures recs == old(recs) + [r] && early == old(early) + [e]
    {
      hide Combined, BlocksBits, Texts, Expand, RL.FrontEnd.Valid, Cut.CutAll, Cut.CutWell, Cut.Carried, Holds,
        ToBits, BytesToBits, GoodRec, Combine, BlockBits, StreamHeaderBits, Codable, ValidLens, GoodRecs;
      combinedCRC := Combine(combinedCRC, blockCRC);
      GoodSnoc(level, recs, r);
      TextsSnoc(recs, r);
      CombinedSnoc(recs, r, 0);
      BlocksSnoc(level, recs, r);
      Cut.CutSnoc(recs, early, fe.limit, r, e);
      recs, early := recs + [r], early + [e];
    }

    method AddBlock(ptr: array<int>, origPtr: nat, ghost text: seq<Byte>, ghost e: bool)
      requires Core() && 1 <= fe.nblock <= 100000 * level - 10 && text == arr2[..fe.nblock] && w.zbase == fe.nblock
        && w.Valid()
      requires BytesToBits(flushed) + w.Emitted() == StreamHeaderBits(level) + BlocksBits(level, recs)
      requires ptr.Length == fe.nblock && Rotations.SortsRotations(text, ptr[..]) && origPtr < fe.nblock
        && ptr[origPtr] == 0
      requires 17 * fe.nblock + 159612 <= w.Room() && ptr as object != arr2
      requires Cut.CutWell(text, fe.limit, e) && Cut.Carried(recs, early, Cut.RunsIn(text))
      modifies this`combinedCRC, this`recs, this`early, w, arr2
      ensures Core() && Texts(recs) == old(Texts(recs)) + Expand(text).out
      ensures Cut.AddsBlock(old(recs), old(early), recs, early, text, e)
      ensures w.zbase == fe.nblock <= arr2.Length && arr2[..fe.nblock] == text && Printed(true) && 80 <= w.Room()
    {
      hide *;
      CoreArrays();
      ghost var r0, e0 := recs, early;
      BC.WriterFacts(w);
      ghost var before := w.Emitted();
      ghost var r;
      var blockCRC;
      r, blockCRC := WriteBlock(ptr, origPtr, text);
      Joined3(BytesToBits(flushed), before, BlockBits(r.x), StreamHeaderBits(level), BlocksBits(level, recs));
      Record(r, blockCRC, e);
      Cut.AddsThis(r0, e0, r, e);
      CoreArrays();
    }

    // Trailer and padding.
    method EndStream()
      requires Core() && Printed(true) && 80 <= w.Room() && w.zbase == fe.nblock
      modifies this`pad, w, arr2
      ensures Core() && Ended() && arr2[..w.zbase] == old(arr2[..w.zbase]) && w.zbase == old(w.zbase) && 0 < w.numZ
    {
      hide Combined, BlocksBits, StreamBits, Texts, Expand, RL.UsedBy, RL.Splits, RL.RunState, Cut.CutAll,
        Cut.Carried, RL.RunsOf, RL.Coded, Crc.Update, Holds, ToBits, BytesToBits, GoodRec, Combine, BlockBits,
        StreamHeaderBits, TrailerBits, GoodRecs;
      ghost var before := w.Emitted();
      PutTrailer(w, combinedCRC);
      pad := w.FinishWrite();
      EndBits(level, recs, flushed, w.arr2[w.zbase..w.zbase + w.numZ], before, pad);
      TrailerSize(combinedCRC);
    }

    // Taking input; the block may have become full.
    ghost predicate Absorbing()
      reads this, fe, fe.inUse, fe.block, w, w.arr2, arr2
    {
      && Core() && !closed && mode != Idle && state == InInput && Printed(blockNo > 1) && w.numZ == 0
        && stateOutPos == 0
      && output == flushed && Texts(recs) + fe.Held() == consumed && fe.nblock <= fe.limit + 4
        && (fe.stateInCh == 256 ==> fe.nblock == 0) && Cut.Carried(recs, early, fe.AllRuns())
    }

    lemma AbsorbingIs()
      ensures Valid() && state == InInput ==> Absorbing() && fe.nblock < fe.limit
      ensures Absorbing() && fe.nblock < fe.limit && w.zbase <= w.arr2.Length ==> Valid()
    {
      hide Core, Printed, Texts, RL.FrontEnd.Held, RL.FrontEnd.Pending, Ended;
      if w.zbase <= w.arr2.Length {
        assert w.arr2[w.zbase..w.zbase] == [];
        assert flushed + [] == flushed;
      }
    }

    // One byte from the caller.
    method Absorb(c: Byte, accelerated: bool)
      requires Absorbing() && fe.nblock < fe.limit
      modifies this`consumed, fe, fe.inUse, arr2
      ensures Absorbing() && consumed == old(consumed) + [c] && fe.stateInCh < 256
    {
      hide Combined, BlocksBits, StreamBits, Texts, Expand, RL.UsedBy, RL.Splits, RL.RunState, Cut.CutAll,
        Cut.Carried, RL.RunsOf, RL.Coded, Crc.Update, Holds, ToBits, BytesToBits, GoodRecs, StreamHeaderBits;
      StillEmpty(w);
      ghost var held, runs := fe.Held(), fe.AllRuns();
      fe.AddChar(c, accelerated);
      Cut.CarriedOn(recs, early, runs, fe.AllRuns());
      StillEmpty(w);
      consumed := consumed + [c];
      assert Texts(recs) + (held + [c]) == Texts(recs) + held + [c];
    }

    /** copy_input_until_stop */
    method CopyInput(input: seq<Byte>, nextIn0: nat, accelerated: bool) returns (nextIn: nat, progress: bool)
      requires Absorbing() && fe.nblock < fe.limit && nextIn0 <= |input|
        && (mode != Running ==> availInExpect == |input| - nextIn0)
      modifies this`consumed, this`availInExpect, fe, fe.inUse, arr2
      ensures Absorbing() && nextIn0 <= nextIn <= |input| && consumed == old(consumed) + input[nextIn0..nextIn]
      ensures (mode != Running ==> availInExpect == |input| - nextIn) && (fe.nblock >= fe.limit || nextIn == |input|)
      ensures fe.nblock >= fe.limit ==> nextIn0 < nextIn && fe.stateInCh < 256
      ensures progress <==> nextIn0 < nextIn
    {
      hide *;
      progress := false;
      nextIn := nextIn0;
      assert consumed == old(consumed) + input[nextIn0..nextIn0];
      while true
        invariant nextIn0 <= nextIn <= |input| && Absorbing() && consumed == old(consumed) + input[nextIn0..nextIn]
        invariant mode == old(mode) && (mode != Running ==> availInExpect == |input| - nextIn)
        invariant fe.nblock >= fe.limit ==> nextIn0 < nextIn && fe.stateInCh < 256
        invariant progress <==> nextIn0 < nextIn
        decreases |input| - nextIn
      {
        if fe.nblock >= fe.limit { break; }
        if nextIn == |input| { break; }
        if mode != Running && availInExpect == 0 { break; }
        progress := true;
        Absorb(input[nextIn], accelerated);
        OneByteOn(input, nextIn0, nextIn);
        Joins(old(consumed), input[nextIn0..nextIn], [input[nextIn]]);
        nextIn := nextIn + 1;
        if mode != Running { CountDown(); }
      }
    }

    method CountDown()
      requires Absorbing() && 0 < availInExpect
      modifies this`availInExpect
      ensures Absorbing() && availInExpect == old(availInExpect) - 1
    {
      hide Combined, BlocksBits, StreamBits, Texts, Expand, RL.UsedBy, RL.Splits, RL.RunState, Cut.CutAll,
        Cut.Carried, RL.RunsOf, RL.Coded, Crc.Update, Holds, ToBits, BytesToBits, GoodRecs, StreamHeaderBits;
      availInExpect := availInExpect - 1;
    }

    lemma OutputParts()
      requires Valid()
      ensures stateOutPos <= w.numZ && w.zbase + w.numZ <= w.arr2.Length
        && output == flushed + w.arr2[w.zbase..w.zbase + stateOutPos]
    {
      hide Core, PrintedOk, TakingInput, GivingOutput;
    }

    lemma MakeOutput()
      requires stateOutPos <= w.numZ && w.zbase + w.numZ <= w.arr2.Length
        && output == flushed + w.arr2[w.zbase..w.zbase + stateOutPos] && mode != Idle
      ensures OutputOk()
    {
    }

    // All but the output fields.
    ghost predicate OutputAside()
      reads this`recs, this`early, this`combinedCRC, this`blockNo, this`flushed, this`pad, this`closed, this`state,
        this`mode, this`consumed, this`availInExpect, fe, fe.inUse, fe.block, w, w.arr2
    {
      Core() && PrintedOk() && GivingOutput() && state == InOutput
    }

    lemma AsideIs()
      ensures Valid() && state == InOutput <==> OutputAside() && OutputOk()
    {
      hide Core, PrintedOk, TakingInput, GivingOutput, OutputOk;
    }

    /** copy_output_until_stop */
    method CopyOutput(availOut: nat) returns (avail: nat, progress: bool)
      requires Valid() && state == InOutput && mode != Idle
      modifies this`stateOutPos, this`output
      ensures Valid() && old(output) <= output && |output| - |old(output)| == availOut - avail
      ensures stateOutPos < w.numZ ==> avail == 0
      ensures (progress <==> avail < availOut) && (!progress ==> stateOutPos == old(stateOutPos))
    {
      hide *;
      avail := availOut;
      OutputParts();
      AsideIs();
      var n := w.numZ - stateOutPos;
      if n <= 0 || availOut == 0 { return avail, false; }
      if n > availOut { n := availOut; }
      SliceGrows(flushed, w.arr2[..], w.zbase, stateOutPos, n);
      output := output + w.arr2[w.zbase + stateOutPos..w.zbase + stateOutPos + n];
      stateOutPos := stateOutPos + n;
      avail := avail - n;
      progress := true;
      MakeOutput();
      AsideIs();
    }

    // What lies in zbits joins what was flushed before.
    method Retire()
      requires Core() && Printed(true) && w.zbase + w.numZ <= w.arr2.Length
        && output == flushed + w.arr2[w.zbase..w.zbase + w.numZ]
      modifies this`stateOutPos, this`flushed, w`numZ
      ensures Core() && Printed(true) && flushed == output && w.numZ == 0 && stateOutPos == 0
    {
      hide Combined, BlocksBits, StreamBits, Texts, Expand, RL.UsedBy, RL.Splits, RL.RunState, Cut.CutAll,
        Cut.Carried, RL.RunsOf, RL.Coded, Crc.Update, Holds, ToBits, BytesToBits, GoodRecs, StreamHeaderBits,
        RL.FrontEnd.Valid;
      ghost var zbits := w.arr2[w.zbase..w.zbase + w.numZ];
      BytesToBitsConcat(flushed, zbits);
      w.DropBytes();
      Joins(BytesToBits(flushed), BytesToBits(zbits), w.Emitted());
      stateOutPos := 0;
      flushed := output;
    }

    lemma GivingParts()
      requires Valid() && state == InOutput && !closed && stateOutPos == w.numZ
      ensures Core() && Printed(true) && w.zbase + w.numZ <= w.arr2.Length && mode != Idle
      ensures output == flushed + w.arr2[w.zbase..w.zbase + w.numZ]
      ensures Texts(recs) + fe.Pending() == consumed && Cut.Carried(recs, early, fe.PendingRuns())
    {
      hide Core, Printed, Ended, Texts, RL.FrontEnd.Pending, Cut.Carried, RL.FrontEnd.PendingRuns;
    }

    // The next block starts with what is pending.
    method FreshBlock()
      requires Core() && Printed(true)
      modifies fe`nblock, fe`blockCRC, fe`runs, fe.inUse
      ensures Core() && Printed(true) && fe.nblock == 0 && fe.Held() == old(fe.Pending())
      ensures fe.Pending() == old(fe.Pending()) && fe.AllRuns() == old(fe.PendingRuns()) && 0 < fe.limit
      ensures IsEmptyRL() == old(IsEmptyRL())
    {
      hide Combined, BlocksBits, Texts, Expand, RL.UsedBy, RL.Splits, RL.RunState, Cut.CutAll, Crc.Update, Holds,
        ToBits, BytesToBits, GoodRecs, StreamHeaderBits;
      fe.PrepareNewBlock();
      assert fe.AllRuns() == fe.PendingRuns();
    }

    method CountBlock()
      requires Core() && Printed(true)
      modifies this`blockNo
      ensures Core() && Printed(true) && blockNo == old(blockNo) + 1 && 1 < blockNo
    {
      hide Combined, BlocksBits, Texts, RL.FrontEnd.Valid, Cut.CutAll, Holds, ToBits, BytesToBits, GoodRecs,
        StreamHeaderBits;
      blockNo := blockNo + 1;
    }

    lemma MakeAbsorbing()
      requires Core() && Printed(true) && !closed && mode != Idle && state == InInput && w.numZ == 0 && stateOutPos == 0
      requires output == flushed && Texts(recs) + fe.Held() == consumed && fe.nblock == 0 && 1 < blockNo
      requires Cut.Carried(recs, early, fe.AllRuns()) && w.Valid()
      ensures Absorbing() && w.zbase <= w.arr2.Length
    {
      hide Core, Texts, Cut.Carried, RL.FrontEnd.AllRuns, RL.FrontEnd.Held, BlocksBits, StreamHeaderBits, BytesToBits,
        Holds, ToBits;
    }

    /** prepare_new_block, all output of the last one having been taken. */
    method NextBlock()
      requires Valid() && state == InOutput && !closed && stateOutPos == w.numZ
      modifies this`state, this`stateOutPos, this`blockNo, this`flushed, fe`nblock, fe`blockCRC, fe`runs, fe.inUse,
        w`numZ
      ensures Valid() && state == InInput && IsEmptyRL() == old(IsEmptyRL()) && output == old(output)
      ensures fe.nblock == 0 && fe.Pending() == old(fe.Pending())
    {
      hide *;
      GivingParts();
      CoreArrays();
      Retire();
      FreshBlock();
      PrintedValid();
      CountBlock();
      state := InInput;
      MakeAbsorbing();
      AbsorbingIs();
    }

    // flush_RL
    method FlushInput(accelerated: bool)
      requires Absorbing()
      modifies fe, fe.inUse, arr2
      ensures Core() && Printed(blockNo > 1) && fe.nblock <= fe.limit + 9 && IsEmptyRL() && fe.Pending() == []
      ensures Texts(recs) + Expand(arr2[..fe.nblock]).out == consumed && w.zbase <= w.arr2.Length
      ensures fe.nblock == 0 ==> Cut.Carried(recs, early, [])
      ensures 0 < fe.nblock ==>
        Cut.CutWell(arr2[..fe.nblock], fe.limit, true)
        && Cut.Carried(recs, early, Cut.RunsIn(arr2[..fe.nblock]))
    {
      hide Combined, BlocksBits, StreamBits, Texts, Expand, RL.UsedBy, RL.Splits, RL.RunState, Cut.CutAll,
        Cut.Carried, RL.RunsOf, RL.Coded, Crc.Update, Holds, ToBits, BytesToBits, GoodRecs, StreamHeaderBits;
      StillEmpty(w);
      fe.FlushRL(accelerated);
      fe.BlockRuns();
      StillEmpty(w);
    }

    // The block in hand, ended before it is full.
    method CompressLast()
      requires Core() && !closed && Printed(blockNo > 1) && w.numZ == 0 && fe.nblock <= 100000 * level - 10
      requires fe.nblock == 0 ==> Cut.Carried(recs, early, [])
      requires 0 < fe.nblock ==>
        Cut.CutWell(arr2[..fe.nblock], fe.limit, true)
        && Cut.Carried(recs, early, Cut.RunsIn(arr2[..fe.nblock]))
      modifies this`combinedCRC, this`recs, this`early, this`closed, this`pad, w, arr2
      ensures Core() && Texts(recs) == old(Texts(recs)) + old(Expand(arr2[..fe.nblock]).out)
      ensures fe.Held() == old(fe.Held()) && arr2[..fe.nblock] == old(arr2[..fe.nblock])
      ensures closed == (mode == Finishing) && w.zbase + w.numZ <= arr2.Length && Cut.Carried(recs, early, [])
      ensures early == old(early) || early == old(early) + [true]
      ensures if closed then Ended() && 0 < w.numZ else Printed(true)
    {
      hide *;
      CoreArrays();
      ghost var r0, e0 := recs, early;
      CompressBlock(mode == Finishing, true);
      if 0 < fe.nblock {
        Cut.CarriedBehind(r0, e0, recs, early, arr2[..fe.nblock], true, []);
        Cut.AddedOne(r0, e0, recs, early, arr2[..fe.nblock], true);
      }
    }

    lemma MakeGiving()
      requires Core() && state == InOutput && mode != Idle && stateOutPos == 0 && output == flushed
      requires w.zbase + w.numZ <= w.arr2.Length && Texts(recs) + fe.Pending() == consumed
      requires Cut.Carried(recs, early, fe.PendingRuns())
      requires if closed then IsEmptyRL() && mode == Finishing && Ended() else Printed(true)
      requires IsEmptyRL() ==> availInExpect == 0 && mode != Running && (closed <==> mode == Finishing)
      ensures Valid()
    {
      hide Core, Texts, Cut.Carried, RL.FrontEnd.PendingRuns, RL.FrontEnd.Pending, BlocksBits, StreamHeaderBits,
        BytesToBits, Holds, ToBits, Ended, Printed, IsEmptyRL;
      assert w.arr2[w.zbase..w.zbase] == [];
      assert flushed + [] == flushed;
    }

    lemma NothingPending()
      requires IsEmptyRL() && Core()
      ensures fe.PendingRuns() == [] && fe.Pending() == []
    {
      hide Combined, Expand, RL.UsedBy, RL.Splits, RL.RunState, Cut.CutAll, Crc.Update, GoodRecs;
    }

    lemma AbsorbingParts()
      requires Absorbing()
      ensures Core() && !closed && mode != Idle && Printed(blockNo > 1) && w.numZ == 0 && stateOutPos == 0
      ensures output == flushed && fe.nblock <= fe.limit + 4 && fe.limit == 100000 * level - 19
      ensures Texts(recs) + fe.Held() == consumed
    {
      hide Combined, Expand, RL.FrontEnd.Valid, Cut.CutAll, GoodRecs, Printed, Texts, RL.FrontEnd.Held, Cut.Carried;
    }

    // flush_RL and the block that ends a flush or the stream.
    method CloseInput(accelerated: bool)
      requires Absorbing() && mode != Running && availInExpect == 0
      modifies this`state, this`combinedCRC, this`recs, this`early, this`closed, this`pad, fe, fe.inUse, w, arr2
      ensures Valid() && state == InOutput && IsEmptyRL() && mode == old(mode) && output == old(output)
      ensures closed ==> stateOutPos < w.numZ
      ensures early == old(early) || early == old(early) + [true]
    {
      hide *;
      AbsorbingParts();
      FlushInput(accelerated);
      CompressLast();
      CoreArrays();
      state := InOutput;
      NothingPending();
      assert Texts(recs) + [] == Texts(recs);
      MakeGiving();
    }

    lemma FullCut()
      requires Absorbing() && fe.limit <= fe.nblock && fe.stateInCh < 256
      ensures |early| == |recs| && 0 < fe.nblock && Cut.CutWell(arr2[..fe.nblock], fe.limit, false)
      ensures Cut.Carried(recs, early, Cut.RunsIn(arr2[..fe.nblock]))
      ensures Cut.Meet(Cut.RunsIn(arr2[..fe.nblock]), fe.PendingRuns())
    {
      hide Printed, Texts, Combined, GoodRecs, RL.FrontEnd.Held, Expand, RL.UsedBy, RL.Splits, RL.RunState, RL.RunsOf,
        RL.Coded, Crc.Update, Cut.CutAll, RL.Follows;
      assert 0 < fe.limit;
      fe.BlockRuns();
      Cut.CarriedOn(recs, early, fe.AllRuns(), fe.runs);
    }

    // A full block; the pending run is carried over.
    method FullBlock()
      requires Absorbing() && fe.limit <= fe.nblock && fe.stateInCh < 256
      modifies this`state, this`combinedCRC, this`recs, this`early, this`closed, this`pad, w, arr2
      ensures Valid() && state == InOutput && !IsEmptyRL() && mode == old(mode) && output == old(output) && !closed
      ensures early == old(early) + [false]
    {
      hide *;
      AbsorbingParts();
      CoreArrays();
      RunPending();
      FullCut();
      ghost var t, e := Texts(recs), Expand(arr2[..fe.nblock]).out;
      Joins(t, e, fe.Pending());
      ghost var r0, e0 := recs, early;
      CompressBlock(false, false);
      CoreArrays();
      Cut.CarriedBehind(r0, e0, recs, early, arr2[..fe.nblock], false, fe.PendingRuns());
      Cut.AddedOne(r0, e0, recs, early, arr2[..fe.nblock], false);
      state := InOutput;
      MakeGiving();
    }

    lemma RunPending()
      requires Core() && fe.stateInCh < 256
      ensures !IsEmptyRL()
    {
      hide Combined, Expand, RL.UsedBy, RL.Splits, RL.RunState, Cut.CutAll, Crc.Update, GoodRecs;
    }

    lemma OutputFacts()
      requires Valid()
      ensures stateOutPos <= w.numZ && fe.block == arr2 == w.arr2
      ensures state == InOutput && IsEmptyRL() ==>
        availInExpect == 0 && mode != Running && (closed <==> (mode == Finishing || mode == Idle))
      ensures closed ==> state == InOutput && IsEmptyRL() && (mode == Finishing || mode == Idle)
      ensures state == InInput ==> w.numZ == 0 && stateOutPos == 0
      ensures IsEmptyRL() <==> fe.stateInCh == 256
    {
      hide Combined, BlocksBits, StreamBits, Texts, Expand, RL.UsedBy, RL.Splits, RL.RunState, Cut.CutAll,
        Cut.Carried, RL.RunsOf, RL.Coded, Crc.Update, Holds, ToBits, BytesToBits, GoodRecs, StreamHeaderBits, Printed,
        Ended;
    }

    // How close the machine is to waiting for the caller.
    function Rank(): nat
      reads this`state, fe
    {
      if state == InInput then 1 else if IsEmptyRL() then 0 else 2
    }

    // The input half of one round of handle_compress; false when it is time to stop.
    method InputRound(input: seq<Byte>, nextIn0: nat, accelerated: bool)
      returns (nextIn: nat, progress: bool, more: bool)
      requires Valid() && state == InInput && mode != Idle && nextIn0 <= |input|
        && (mode != Running ==> availInExpect == |input| - nextIn0)
      modifies this`state, this`consumed, this`availInExpect, this`combinedCRC, this`recs, this`early, this`closed,
        this`pad, fe, fe.inUse, w, arr2
      ensures Valid() && nextIn0 <= nextIn <= |input| && consumed == old(consumed) + input[nextIn0..nextIn]
        && output == old(output)
      ensures mode != Running ==> availInExpect == |input| - nextIn
      ensures more ==> nextIn0 < nextIn || (state == InOutput && IsEmptyRL())
      ensures more ==> state == InOutput
      ensures !more ==> state == InInput && nextIn == |input| && mode == Running
      ensures (progress <==> nextIn0 < nextIn) && (closed ==> stateOutPos < w.numZ)
      ensures Cut.Extended(old(early), early, AllIn())
    {
      hide *;
      AbsorbingIs();
      nextIn, progress := CopyInput(input, nextIn0, accelerated);
      ghost var e0 := early;
      if mode != Running && availInExpect == 0 {
        CloseInput(accelerated);
        more := true;
      } else if fe.nblock >= fe.limit {
        FullBlock();
        more := true;
      } else {
        RoomLeft();
        AbsorbingIs();
        OutputFacts();
        more := false;
      }
      AllInIs();
      Cut.ExtendedOnce(e0, early, AllIn());
    }

    // Everything promised to a flush or finish is in a block.
    predicate AllIn()
      reads this`mode, this`availInExpect, fe
    {
      mode != Running && availInExpect == 0 && IsEmptyRL()
    }

    lemma AllInIs()
      ensures AllIn() <==> mode != Running && availInExpect == 0 && IsEmptyRL()
    {
      hide IsEmptyRL;
    }

    lemma RoomLeft()
      requires Absorbing()
      ensures w.zbase <= w.arr2.Length && state == InInput
    {
      hide Core, Holds, BytesToBits, ToBits, BlocksBits, StreamHeaderBits;
    }

    /** handle_compress: input and output by turns until one of them runs out. */
    method HandleCompress(input: seq<Byte>, availOut: nat, accelerated: bool)
      returns (nextIn: nat, avail: nat, progress: bool)
      requires Valid() && mode != Idle && (mode != Running ==> availInExpect == |input|)
      modifies this, fe, fe.inUse, w, arr2
      ensures Valid() && mode == old(mode) && nextIn <= |input| && consumed == old(consumed) + input[..nextIn]
      ensures old(output) <= output && |output| - |old(output)| == availOut - avail
      ensures mode != Running ==> availInExpect == |input| - nextIn
      ensures mode != Running && availInExpect == 0 && IsEmptyRL() && stateOutPos == w.numZ ==>
        (if mode == Finishing then closed else state == InInput)
      ensures progress <==> 0 < nextIn || avail < availOut
      ensures avail == 0 ||
        (if mode == Running then nextIn == |input| else availInExpect == 0 && IsEmptyRL() && stateOutPos == w.numZ)
      ensures old(closed ==> stateOutPos < w.numZ) && closed ==> stateOutPos < w.numZ || progress
      ensures Cut.Extended(old(early), early, AllIn())
    {
      hide *;
      Cut.ExtendedNot(early);
      nextIn, avail, progress := 0, availOut, false;
      assert input[..0] == [] && consumed == old(consumed) + [];
      while true
        invariant Valid() && mode == old(mode) && nextIn <= |input| && consumed == old(consumed) + input[..nextIn]
        invariant old(output) <= output && |output| - |old(output)| == availOut - avail
        invariant mode != Running ==> availInExpect == |input| - nextIn
        invariant avail <= availOut && (progress <==> 0 < nextIn || avail < availOut)
        invariant old(closed ==> stateOutPos < w.numZ) && closed ==> stateOutPos < w.numZ || progress
        invariant Cut.Extended(old(early), early, AllIn())
          && (state == InInput ==> Cut.Extended(old(early), early, false))
        decreases |input| - nextIn, Rank()
      {
        RankIs();
        AllInIs();
        if state == InOutput {
          var p;
          avail, p := CopyOutput(avail);
          progress := progress || p;
          OutputFacts();
          if stateOutPos < w.numZ { break; }
          if mode == Finishing && availInExpect == 0 && IsEmptyRL() { break; }
          NextBlock();
          OutputFacts();
          AllInIs();
          if mode == Flushing && availInExpect == 0 && IsEmptyRL() { break; }
        }
        ghost var e0 := early;
        var from, p, more := nextIn, false, false;
        nextIn, p, more := InputRound(input, nextIn, accelerated);
        Cut.ExtendedOn(old(early), e0, early, AllIn());
        progress := progress || p;
        PrefixOn(input, from, nextIn);
        Joins(old(consumed), input[..from], input[from..nextIn]);
        RankIs();
        if !more { break; }
      }
    }

    lemma RankIs()
      ensures Rank() == if state == InInput then 1 else if IsEmptyRL() then 0 else 2
    {
      hide IsEmptyRL;
    }

    // Entering a mode.
    method Enter(m: Mode, count: nat)
      requires Valid() && mode == Running && (m == Flushing || m == Finishing)
      modifies this`mode, this`availInExpect
      ensures Valid() && mode == m && availInExpect == count && !closed
    {
      hide Combined, BlocksBits, StreamBits, Texts, Expand, RL.UsedBy, RL.Splits, RL.RunState, Cut.CutAll,
        Cut.Carried, RL.RunsOf, RL.Coded, Crc.Update, Holds, ToBits, BytesToBits, GoodRecs, StreamHeaderBits, Printed,
        Ended, RL.FrontEnd.Valid, RL.FrontEnd.Held, RL.FrontEnd.Pending;
      mode := m;
      availInExpect := count;
    }

    // Leaving it once everything has been handed over.
    method Leave()
      requires Valid() && stateOutPos == w.numZ
        && ((mode == Flushing && state == InInput) || (mode == Finishing && closed))
      modifies this`mode
      ensures Valid() && mode == if old(mode) == Flushing then Running else Idle
    {
      hide Combined, BlocksBits, StreamBits, Texts, Expand, RL.UsedBy, RL.Splits, RL.RunState, Cut.CutAll,
        Cut.Carried, RL.RunsOf, RL.Coded, Crc.Update, Holds, ToBits, BytesToBits, GoodRecs, StreamHeaderBits, Printed,
        Ended, RL.FrontEnd.Valid, RL.FrontEnd.Held, RL.FrontEnd.Pending;
      mode := if mode == Flushing then Running else Idle;
    }

    // handle_compress within a flush or finish, and whether that is now done with.
    method Continue(input: seq<Byte>, availOut: nat, accelerated: bool)
      returns (nextIn: nat, avail: nat, progress: bool, complete: bool)
      requires Resting() && (mode == Flushing || mode == Finishing) && availInExpect == |input|
      modifies this, fe, fe.inUse, w, arr2
      ensures Valid() && mode == old(mode) && nextIn <= |input| && consumed == old(consumed) + input[..nextIn]
      ensures old(output) <= output && |output| - |old(output)| == availOut - avail
        && (progress <==> 0 < nextIn || avail < availOut)
      ensures complete ==>
        nextIn == |input| && stateOutPos == w.numZ
          && ((mode == Flushing && state == InInput) || (mode == Finishing && closed))
      ensures complete ==> IsEmptyRL() && (mode == Finishing ==> progress)
      ensures !complete ==> avail == 0 && Resting()
      ensures Cut.Extended(old(early), early, nextIn == |input|)
    {
      hide *;
      RestingIs();
      nextIn, avail, progress := HandleCompress(input, availOut, accelerated);
      OutputFacts();
      complete := !(availInExpect > 0 || !IsEmptyRL() || stateOutPos < w.numZ);
      RestingIs();
      AllInIs();
      Cut.ExtendedWeaker(old(early), early, AllIn(), nextIn == |input|);
    }

    // Between calls: a stream that is written out is not yet all handed over, or else Idle.
    ghost predicate Resting()
      reads this, fe, fe.inUse, fe.block, w, w.arr2, arr2
    {
      Valid() && (closed && mode == Finishing ==> stateOutPos < w.numZ)
    }

    lemma RestingIs()
      ensures Resting() <==> Valid() && (closed && mode == Finishing ==> stateOutPos < w.numZ)
      ensures Valid() && mode == Running ==> !closed
    {
      hide Core, Printed, Ended, OutputOk, TakingInput, GivingOutput;
    }

    // The call fits the mode the machine is in.
    predicate Accepts(action: Action, n: nat)
      reads this`mode, this`availInExpect
    {
      match mode
      case Idle => false
      case Running => true
      case Flushing => action == Flush && availInExpect == n
      case Finishing => action == Finish && availInExpect == n
    }

    // Nothing is held back: the blocks stand for all that has been taken.
    lemma AllInBlocks()
      requires Valid() && state == InInput && IsEmptyRL()
      ensures Texts(recs) == consumed
    {
      hide Texts, RL.UsedBy, RL.Splits, RL.RunState, Cut.CutAll, Cut.Carried, RL.RunsOf, RL.Coded, Crc.Update, Holds,
        ToBits, BytesToBits, GoodRecs, StreamHeaderBits, BlocksBits, Combined;
      NothingExpands(fe.block[..fe.nblock]);
      assert Texts(recs) + [] == Texts(recs);
    }

    /** BZ2_bzCompress: one call with any action and any buffers.  A call that does not fit the
        mode changes nothing; RUN stops only for want of input or of room; FLUSH and FINISH report
        completion exactly when nothing is left to do, and otherwise the output is full.  Only FLUSH
        and FINISH end a block that is not full, once each and behind the last byte they were given. */
    method Compress(action: Action, input: seq<Byte>, availOut: nat, accelerated: bool)
      returns (reply: Reply, nextIn: nat, avail: nat)
      requires Resting()
      modifies this, fe, fe.inUse, w, arr2
      ensures Resting() && nextIn <= |input| && consumed == old(consumed) + input[..nextIn]
      ensures old(output) <= output && |output| - |old(output)| == availOut - avail
      ensures !old(Accepts(action, |input|)) ==>
        reply == SequenceError && nextIn == 0 && avail == availOut && mode == old(mode)
      ensures old(Accepts(action, |input|)) ==> match action
        case Run =>
          && mode == Running && reply == (if 0 < nextIn || avail < availOut then RunOk else ParamError)
          && (avail == 0 || nextIn == |input|)
        case Flush =>
          if mode == Running then
            reply == RunOk && nextIn == |input| && Texts(recs) == consumed && stateOutPos == w.numZ
          else mode == Flushing && reply == FlushOk && avail == 0
        case Finish =>
          if mode == Idle then reply == Reply.StreamEnd && nextIn == |input|
          else
            mode == Finishing && avail == 0
            && reply == (if 0 < nextIn || avail < availOut then FinishOk else SequenceError)
      ensures Cut.Extended(old(early), early, action != Run && nextIn == |input|)
    {
      hide *;
      Cut.ExtendedNot(early);
      RestingIs();
      AcceptsIs(action, |input|);
      assert input[..0] == [] && consumed == old(consumed) + [];
      if mode == Idle { return SequenceError, 0, availOut; }
      if mode == Running {
        if action == Run {
          var progress;
          nextIn, avail, progress := HandleCompress(input, availOut, accelerated);
          AllInIs();
          RestingIs();
          return if progress then RunOk else ParamError, nextIn, avail;
        }
        Enter(if action == Flush then Flushing else Finishing, |input|);
        RestingIs();
      }
      if action != (if mode == Flushing then Flush else Finish) { return SequenceError, 0, availOut; }
      if availInExpect != |input| { return SequenceError, 0, availOut; }
      var progress, complete;
      nextIn, avail, progress, complete := Continue(input, availOut, accelerated);
      if mode == Finishing && !progress { return SequenceError, nextIn, avail; }
      if !complete { return if mode == Flushing then FlushOk else FinishOk, nextIn, avail; }
      reply := if mode == Flushing then RunOk else Reply.StreamEnd;
      if mode == Flushing { AllInBlocks(); }
      Leave();
      RestingIs();
    }

    lemma AcceptsIs(action: Action, n: nat)
      ensures mode == Running ==> Accepts(action, n)
      ensures mode == Flushing ==> (Accepts(action, n) <==> action == Flush && availInExpect == n)
      ensures mode == Finishing ==> (Accepts(action, n) <==> action == Finish && availInExpect == n)
      ensures mode == Idle ==> !Accepts(action, n)
    {
    }

    /** After any sequence of calls that ends the stream, the bytes handed out decode, with
        every CRC check passed, to exactly the bytes taken in. */
    lemma Faithful()
      requires Valid() && mode == Idle
      ensures Ok(Magic(0)) && exists p: nat ::
        p < 8 && Session(Magic(0), BytesToBits(output), 0) == Decoded(consumed, Verdict.StreamEnd(ToBits(0, p)))
    {
      IdleFacts();
      RoundTrip(level, recs, ToBits(0, pad));
    }

    /** In any state every block is the one run-length coding of what it stands for, and was ended where the
        source ends it: with the run that filled it to 100000 bytes a level less 19, unless a flush or
        the end of the stream came first; the next block goes on with the run behind. */
    lemma BlocksCut()
      requires Valid()
      ensures 1 <= level <= 9 && Cut.CutAll(recs, early, 100000 * level - 19)
    {
      hide Combined, RL.FrontEnd.Valid, Cut.CutAll, GoodRecs, PrintedOk, OutputOk, TakingInput, GivingOutput;
    }

    /** What a finished stream consists of, in literal bytes and bits: see Framed.  The parts are what the
        blocks stand for; together they are all that was taken.  Fewer than 8 zero bits follow. */
    lemma Written() returns (parts: seq<seq<Byte>>)
      requires Valid() && mode == Idle
      ensures Joined(parts) == consumed && (consumed != [] ==> parts != []) && 1 <= level <= 9
      ensures exists p: nat ::
        p < 8 && p <= |BytesToBits(output)| && EndsInZeros(BytesToBits(output), p)
        && Framed(BytesToBits(output)[..|BytesToBits(output)| - p], level, CrcsOf(parts))
    {
      hide *;
      IdleFacts();
      LevelRange(level, recs);
      parts := PartsOf(recs);
      PartsAre(level, recs);
      StreamWritten(level, recs);
      ThenPad(StreamBits(level, recs), pad);
    }

    lemma IdleFacts()
      requires Valid() && mode == Idle
      ensures GoodRecs(level, recs) && pad < 8 && BytesToBits(output) == StreamBits(level, recs) + ToBits(0, pad)
        && Texts(recs) == consumed
    {
      hide Combined, BlocksBits, StreamBits, Texts, Expand, RL.UsedBy, RL.Splits, RL.RunState, Cut.CutAll,
        Cut.Carried, RL.RunsOf, RL.Coded, Crc.Update, Holds, ToBits, BytesToBits, GoodRecs, StreamHeaderBits;
      assert Texts(recs) + [] == Texts(recs);
    }
  }

  ghost predicate EndsInZeros(b: seq<bool>, p: nat) {
    p <= |b| && b[|b| - p..] == ToBits(0, p)
  }

  lemma ThenPad(b: seq<bool>, pad: nat)
    ensures EndsInZeros(b + ToBits(0, pad), pad) && (b + ToBits(0, pad))[..|b|] == b
  {
    hide ToBits;
  }

  lemma SliceGrows(f: seq<Byte>, a: seq<Byte>, z: nat, p: nat, n: nat)
    requires z + p + n <= |a|
    ensures f + a[z..z + p] + a[z + p..z + p + n] == f + a[z..z + p + n]
  {
    assert a[z..z + p] + a[z + p..z + p + n] == a[z..z + p + n];
  }

  lemma OneByteOn(input: seq<Byte>, a: nat, b: nat)
    requires a <= b < |input|
    ensures input[a..b + 1] == input[a..b] + [input[b]]
  {
  }

  lemma Joined3(f: seq<bool>, e: seq<bool>, b: seq<bool>, h: seq<bool>, bs: seq<bool>)
    requires f + e == h + bs
    ensures f + (e + b) == h + (bs + b)
  {
    assert f + (e + b) == (f + e) + b && h + (bs + b) == (h + bs) + b;
  }

  lemma EndBits(level: int, recs: seq<Rec>, flushed: seq<Byte>, zbits: seq<Byte>, before: seq<bool>, pad: nat)
    requires GoodRecs(level, recs) && forall i :: 0 <= i < |recs| ==> recs[i].x.crc < Gf2.TOP32
    requires BytesToBits(flushed) + before == StreamHeaderBits(level) + BlocksBits(level, recs)
    requires BytesToBits(zbits) == before + TrailerBits(Combined(recs, 0)) + ToBits(0, pad)
    ensures BytesToBits(flushed + zbits) == StreamBits(level, recs) + ToBits(0, pad)
  {
    hide GoodRecs, BlocksBits, Combined, TrailerBits, StreamHeaderBits, ToBits, BytesToBits;
    BytesToBitsConcat(flushed, zbits);
    EndOrder(BytesToBits(flushed), before, TrailerBits(Combined(recs, 0)), ToBits(0, pad), StreamHeaderBits(level),
             BlocksBits(level, recs));
  }

  lemma TrailerSize(crc: nat)
    requires crc < 0x1_0000_0000
    ensures 0 < |TrailerBits(crc)|
  {
    hide EndMagicBits;
  }

  lemma EndOrder(f: seq<bool>, e: seq<bool>, t: seq<bool>, p: seq<bool>, h: seq<bool>, bs: seq<bool>)
    requires f + e == h + bs
    ensures f + (e + t + p) == h + bs + t + p
  {
    assert f + (e + t + p) == (f + e) + t + p;
  }

  lemma FinalIsCrc(c: nat, s: seq<Byte>)
    requires c < Gf2.TOP32 && Crc.CRC_INIT < Gf2.TOP32 && c == Crc.Update(Crc.CRC_INIT, s)
    ensures Finalised(c) == CrcOf(s) && Finalised(c) < Gf2.TOP32
  {
    hide Crc.Update;
  }

  lemma GoodIsCrc(level: int, r: Rec)
    requires GoodRec(level, r)
    ensures r.x.crc == CrcOf(Expand(r.text).out)
  {
  }

  lemma StillEmpty(w: Writer)
    requires w.Valid() && w.numZ == 0
    ensures w.Emitted() == ToBits(w.held, w.bsLive) && w.zbase <= w.arr2.Length
  {
    hide Holds, ToBits;
    assert w.arr2[w.zbase..w.zbase] == [];
    assert [] + ToBits(w.held, w.bsLive) == ToBits(w.held, w.bsLive);
  }

  lemma HeaderOnly(level: int, flushed: seq<Byte>, e: seq<bool>)
    requires 1 <= level <= 9 && flushed == [] && e == [] + StreamHeaderBits(level)
    ensures GoodRecs(level, []) && BytesToBits(flushed) + e == StreamHeaderBits(level) + BlocksBits(level, [])
  {
    hide StreamHeaderBits;
    assert BytesToBits([]) == [];
  }

  lemma NothingExpands(text: seq<Byte>)
    requires text == []
    ensures Expand(text).out == []
  {
  }

  lemma NoBlocks(level: int)
    requires 1 <= level <= 9
    ensures GoodRecs(level, []) && Combined([], 0) == 0 && Texts([]) == []
  {
  }
}