/**
 The 64-bit output buffer (bsW, bsNEEDW, bsFinishWrite): pending bits sit at the
 top of the word and leave it four bytes, or at the end one byte, at a time.
 */
module BitWriter {
  import opened Bits
  import opened Codes

  // The top live bits of buf hold v, the rest is zero.
  predicate Holds(buf: nat, live: nat, v: nat) {
    live <= 64 && v < Pow2(live) && buf == Shl(v, 64 - live)
  }

  // Adding n bits below the live ones.
  lemma PushBits(buf: nat, live: nat, v: nat, n: nat, w: nat)
    requires Holds(buf, live, v) && live + n <= 64 && w < Pow2(n)
    ensures Holds(Or(buf, Shl(w, 64 - live - n)), live + n, Shl(v, n) + w)
    ensures ToBits(Shl(v, n) + w, live + n) == ToBits(v, live) + ToBits(w, n)
  {
    hide *;
    var k := 64 - live - n;
    HoldsIs(buf, live, v);
    ShlBelow(w, n, k);
    ShlPlus(v, n, k);
    OrDisjoint(v, Shl(w, k), n + k);
    ShlAdd(Shl(v, n), w, k);
    FieldFits(v, live, w, n);
    ToBitsConcat(v, w, live, n);
    MakeHolds(Or(buf, Shl(w, k)), live + n, Shl(v, n) + w);
  }

  lemma HoldsIs(buf: nat, live: nat, v: nat)
    requires Holds(buf, live, v)
    ensures live <= 64 && v < Pow2(live) && buf == Shl(v, 64 - live)
  {
  }

  lemma MakeHolds(buf: nat, live: nat, v: nat)
    requires live <= 64 && v < Pow2(live) && buf == Shl(v, 64 - live)
    ensures Holds(buf, live, v)
  {
  }

  lemma FieldFits(v: nat, live: nat, w: nat, n: nat)
    requires v < Pow2(live) && w < Pow2(n)
    ensures Shl(v, n) + w < Pow2(live + n)
  {
    hide *;
    ShlMono(v + 1, Pow2(live), n);
    ShlAdd(v, 1, n);
    ShlPow2(live, n);
    ShlOne(n);
  }

  lemma ShlOne(n: nat)
    ensures Shl(1, n) == Pow2(n)
  {
    ShlIsMul(1, n);
  }

  // What stays in the word when its top j bits are shifted out.
  lemma PopRest(buf: nat, v: nat, a: nat, r: nat, j: nat, m: nat, k: nat)
    requires j + m + k == 64 && buf == Shl(v, k) && v == Shl(a, m) + r && r < Pow2(m)
    ensures Shl(buf, j) % WORD64 == Shl(r, j + k)
  {
    hide *;
    ShlPlus(v, k, j);
    ShlAdd(Shl(a, m), r, k + j);
    ShlPlus(a, m, k + j);
    ShlBelow(r, m, k + j);
    ModTop(a, Shl(r, k + j));
  }

  lemma PopField(v: nat, a: nat, r: nat, j: nat, m: nat)
    requires v == Shl(a, m) + r && r < Pow2(m) && a < Pow2(j)
    ensures ToBits(v, j + m) == ToBits(a, j) + ToBits(r, m)
  {
    hide *;
    ToBitsConcat(a, r, j, m);
  }

  // Removing the top j bits.
  lemma PopBits(buf: nat, live: nat, v: nat, j: nat) returns (r: nat)
    requires Holds(buf, live, v) && j <= live
    ensures Shr(buf, 64 - j) == Shr(v, live - j) < Pow2(j)
    ensures Holds(Shl(buf, j) % WORD64, live - j, r)
    ensures ToBits(v, live) == ToBits(Shr(v, live - j), j) + ToBits(r, live - j)
  {
    hide *;
    HoldsIs(buf, live, v);
    var m, k := live - j, 64 - live;
    var a := Shr(v, m);
    r := ShrDecompose(v, m);
    Pow2Is64();
    ShrOfShl(v, m, k);
    assert m + k == 64 - j;
    ShrFits(v, j, m);
    PopRest(buf, v, a, r, j, m, k);
    MakeHolds(Shl(buf, j) % WORD64, m, r);
    PopField(v, a, r, j, m);
  }

  lemma ShrOfShl(v: nat, m: nat, k: nat)
    ensures Shr(Shl(v, k), m + k) == Shr(v, m)
  {
    hide *;
    ShrPlus(Shl(v, k), k, m);
    ShrShl(v, k);
  }

  lemma ModTop(a: nat, b: nat)
    requires b < Pow2(64)
    ensures (Shl(a, 64) + b) % WORD64 == b
  {
    hide *;
    ShlIsMul(a, 64);
    Pow2Is64();
    DivModUnique(a, WORD64, b);
  }

  // (UChar)(buf >> k)
  function TopByte(buf: nat, k: nat): Byte {
    Shr(buf, k) % 256
  }

  // The top 32 bits as the four bytes written for them.
  lemma FourBytes(buf: nat)
    ensures BytesToBits([TopByte(buf, 56), TopByte(buf, 48), TopByte(buf, 40), TopByte(buf, 32)]) ==
      ToBits(Shr(buf, 32), 32)
  {
    hide *;
    var a := Shr(buf, 32);
    var b3, b2, b1, b0 := TopByte(buf, 56), TopByte(buf, 48), TopByte(buf, 40), TopByte(buf, 32);
    ByteOf(a, 24);
    ByteOf(a, 16);
    ByteOf(a, 8);
    ByteOf(a, 0);
    ShrPlus(buf, 32, 24);
    ShrPlus(buf, 32, 16);
    ShrPlus(buf, 32, 8);
    ShrPlus(buf, 32, 0);
    TopByteIs(buf);
    ToBitsSplit(a, 24, 8);
    ToBitsSplit(Shr(a, 8), 16, 8);
    ShrPlus(a, 8, 8);
    ToBitsSplit(Shr(a, 16), 8, 8);
    ShrPlus(a, 16, 8);
    ShrNone(a);
    FourAppended(b3, b2, b1, b0);
  }

  lemma TopByteIs(buf: nat)
    ensures TopByte(buf, 56) == Shr(buf, 56) % 256 && TopByte(buf, 48) == Shr(buf, 48) % 256
    ensures TopByte(buf, 40) == Shr(buf, 40) % 256 && TopByte(buf, 32) == Shr(buf, 32) % 256
  {
    hide Shr;
  }

  lemma ByteOf(a: nat, k: nat)
    ensures ToBits(Shr(a, k), 8) == ToBits(Shr(a, k) % 256, 8)
  {
    hide *;
    Pow2Is64();
    ToBitsMod(Shr(a, k), 8, 8);
  }

  lemma FourAppended(b3: Byte, b2: Byte, b1: Byte, b0: Byte)
    ensures BytesToBits([b3, b2, b1, b0]) == ToBits(b3, 8) + ToBits(b2, 8) + ToBits(b1, 8) + ToBits(b0, 8)
  {
    hide *;
    NoBytes();
    BytesToBitsSnoc([], b3);
    BytesToBitsSnoc([b3], b2);
    BytesToBitsSnoc([b3, b2], b1);
    BytesToBitsSnoc([b3, b2, b1], b0);
    Snocs(b3, b2, b1, b0);
    NothingBefore(ToBits(b3, 8));
  }

  lemma NothingBefore(x: seq<bool>)
    ensures [] + x == x
  {
  }

  lemma Snocs(b3: Byte, b2: Byte, b1: Byte, b0: Byte)
    ensures [] + [b3] == [b3] && [b3] + [b2] == [b3, b2] && [b3, b2] + [b1] == [b3, b2, b1]
    ensures [b3, b2, b1] + [b0] == [b3, b2, b1, b0]
  {
  }

  lemma OneByte(c: Byte)
    ensures BytesToBits([c]) == ToBits(c, 8)
  {
    hide *;
    NoBytes();
    BytesToBitsSnoc([], c);
    assert [] + [c] == [c];
    NothingBefore(ToBits(c, 8));
  }

  class Writer {
    const arr2: array<Byte>      // block bytes first, the bits of the block behind them
    var zbase: nat               // zbits = arr2 + nblock
    var numZ: nat
    var bsBuff: nat
    var bsLive: int
    ghost var held: nat          // the live bits of bsBuff as a number

    ghost predicate Valid()
      reads this, arr2
    {
      zbase + numZ <= arr2.Length && 0 <= bsLive <= 64 && Holds(bsBuff, bsLive, held) && 0 <= Room()
    }

    // Bits that can still be written.
    function Room(): int
      reads this
    {
      8 * (arr2.Length - zbase - numZ) - bsLive
    }

    // Everything written since numZ was last reset, the bits still in the buffer included.
    ghost function Emitted(): seq<bool>
      requires zbase + numZ <= arr2.Length && 0 <= bsLive
      reads this, arr2
    {
      BytesToBits(arr2[zbase..zbase + numZ]) + ToBits(held, bsLive)
    }

    constructor (arr: array<Byte>)
      ensures Valid() && arr2 == arr && zbase == 0 && numZ == 0 && bsLive == 0 && Emitted() == []
    {
      hide Holds, ToBits, BytesToBits;
      arr2, zbase, numZ, bsBuff, bsLive, held := arr, 0, 0, 0, 0, 0;
      new;
      EmptyBuffer();
      assert arr2[0..0] == [];
    }

    // BZ2_bsInitWrite
    method InitWrite()
      requires Valid() && numZ == 0
      modifies this`bsBuff, this`bsLive, this`held
      ensures Valid() && bsLive == 0 && Emitted() == []
    {
      hide Holds, ToBits, BytesToBits;
      EmptyBuffer();
      bsLive, bsBuff, held := 0, 0, 0;
      assert arr2[zbase..zbase] == [];
    }

    // zbits = arr2 + nblock, with nothing written yet.
    method Rebase(nblock: nat)
      requires Valid() && numZ == 0 && 8 * nblock + bsLive <= 8 * arr2.Length
      modifies this`zbase
      ensures Valid() && zbase == nblock && Emitted() == old(Emitted())
    {
      hide Holds, ToBits, BytesToBits;
      zbase := nblock;
      assert arr2[nblock..nblock] == [] == old(arr2[zbase..zbase]);
    }

    // numZ = 0: the bytes written have been taken away, the bits in the buffer stay.
    method DropBytes()
      requires Valid()
      modifies this`numZ
      ensures Valid() && numZ == 0 && old(Emitted()) == old(BytesToBits(arr2[zbase..zbase + numZ])) + Emitted()
    {
      hide Holds, ToBits, BytesToBits;
      numZ := 0;
      EmptyBuffer();
      assert arr2[zbase..zbase] == [];
      assert [] + ToBits(held, bsLive) == ToBits(held, bsLive);
    }

    // bsNEEDW
    method NeedRoom()
      requires Valid()
      modifies this`numZ, this`bsBuff, this`bsLive, this`held, arr2
      ensures Valid() && bsLive < 32 && Room() == old(Room()) && Emitted() == old(Emitted())
      ensures arr2[..zbase] == old(arr2[..zbase])
    {
      while bsLive >= 32
        invariant Valid() && Room() == old(Room()) && Emitted() == old(Emitted())
        invariant arr2[..zbase] == old(arr2[..zbase])
        decreases bsLive
      {
        FlushWord();
      }
    }

    lemma Fits32()
      requires Valid() && 32 <= bsLive
      ensures zbase + numZ + 4 <= arr2.Length && bsLive <= 64 && Holds(bsBuff, bsLive, held) && 0 <= Room()
        && 0 < WORD64
      ensures Emitted() == BytesToBits(arr2[zbase..zbase + numZ]) + ToBits(held, bsLive)
        && Room() == 8 * (arr2.Length - zbase - numZ) - bsLive
    {
      hide Holds, ToBits, BytesToBits;
    }

    lemma StillValid()
      requires zbase + numZ <= arr2.Length && 0 <= bsLive <= 64 && Holds(bsBuff, bsLive, held)
        && bsLive <= 8 * (arr2.Length - zbase - numZ)
      ensures Valid() && Emitted() == BytesToBits(arr2[zbase..zbase + numZ]) + ToBits(held, bsLive)
        && Room() == 8 * (arr2.Length - zbase - numZ) - bsLive
    {
      hide Holds, ToBits, BytesToBits;
    }

    // One round of bsNEEDW.
    method FlushWord()
      requires Valid() && 32 <= bsLive
      modifies this`numZ, this`bsBuff, this`bsLive, this`held, arr2
      ensures Valid() && bsLive == old(bsLive) - 32 && Room() == old(Room()) && Emitted() == old(Emitted())
      ensures arr2[..zbase] == old(arr2[..zbase])
    {
      hide *;
      Fits32();
      ghost var r := PopBits(bsBuff, bsLive, held, 32);
      FourBytes(bsBuff);
      ghost var before := arr2[..];
      var at := zbase + numZ;
      arr2[at] := TopByte(bsBuff, 56);
      arr2[at + 1] := TopByte(bsBuff, 48);
      arr2[at + 2] := TopByte(bsBuff, 40);
      arr2[at + 3] := TopByte(bsBuff, 32);
      Appended(before, arr2[..], zbase, at,
               [TopByte(bsBuff, 56), TopByte(bsBuff, 48), TopByte(bsBuff, 40), TopByte(bsBuff, 32)]);
      BytesToBitsConcat(before[zbase..at], arr2[..][at..at + 4]);
      Joins(BytesToBits(before[zbase..at]), ToBits(Shr(held, bsLive - 32), 32), ToBits(r, bsLive - 32));
      numZ := numZ + 4;
      bsBuff := Shl(bsBuff, 32) % WORD64;
      bsLive := bsLive - 32;
      held := r;
      StillValid();
    }

    /** bsW: n bits of v follow what was written before; nothing else changes. */
    method PutBits(n: nat, v: nat)
      requires Valid() && n <= 32 && v < Pow2(n) && n <= Room()
      modifies this`numZ, this`bsBuff, this`bsLive, this`held, arr2
      ensures Valid() && Emitted() == old(Emitted()) + ToBits(v, n) && Room() == old(Room()) - n
      ensures arr2[..zbase] == old(arr2[..zbase])
    {
      hide Holds, ToBits, BytesToBits, Shl, Pow2, Or;
      NeedRoom();
      PushBits(bsBuff, bsLive, held, n, v);
      Joins(BytesToBits(arr2[zbase..zbase + numZ]), ToBits(held, bsLive), ToBits(v, n));
      bsBuff := Or(bsBuff, Shl(v, 64 - bsLive - n));
      held := Shl(held, n) + v;
      bsLive := bsLive + n;
    }

    /** bsFinishWrite: the last bits are padded with zeros to whole bytes. */
    method FinishWrite() returns (ghost pad: nat)
      requires Valid()
      modifies this`numZ, this`bsBuff, this`bsLive, this`held, arr2
      ensures pad < 8 && zbase + numZ <= arr2.Length && bsLive <= 0
      ensures BytesToBits(arr2[zbase..zbase + numZ]) == old(Emitted()) + ToBits(0, pad)
      ensures arr2[..zbase] == old(arr2[..zbase])
    {
      hide Holds, ToBits, BytesToBits, Shr, Shl, Pow2, TopByte;
      ghost var bytes: nat := (bsLive + 7) / 8;
      pad := 8 * bytes - bsLive;
      PadHolds(bsBuff, bsLive, held, pad);
      Joins(BytesToBits(arr2[zbase..zbase + numZ]), ToBits(held, bsLive), ToBits(0, pad));
      held := Shl(held, pad);
      while bsLive > 0
        invariant 8 * bytes == bsLive + pad && bytes <= 8 && zbase + numZ + bytes <= arr2.Length
        invariant Holds(bsBuff, 8 * bytes, held)
        invariant BytesToBits(arr2[zbase..zbase + numZ]) + ToBits(held, 8 * bytes) == old(Emitted()) + ToBits(0, pad)
        invariant arr2[..zbase] == old(arr2[..zbase])
        decreases bsLive
      {
        FlushByte(8 * bytes);
        bytes := bytes - 1;
      }
      NoLiveBits(BytesToBits(arr2[zbase..zbase + numZ]), held);
    }

    // One round of bsFinishWrite.
    method FlushByte(ghost live: nat)
      requires 8 <= live <= 64 && zbase + numZ < arr2.Length && Holds(bsBuff, live, held)
      modifies this`numZ, this`bsBuff, this`bsLive, this`held, arr2
      ensures zbase + numZ <= arr2.Length && numZ == old(numZ) + 1 && bsLive == old(bsLive) - 8
        && Holds(bsBuff, live - 8, held)
      ensures BytesToBits(arr2[zbase..zbase + numZ]) + ToBits(held, live - 8)
        == old(BytesToBits(arr2[zbase..zbase + numZ]) + ToBits(held, live))
      ensures arr2[..zbase] == old(arr2[..zbase])
    {
      hide Holds, ToBits, BytesToBits, Shr, Shl, Pow2, TopByte;
      ghost var r := PopBits(bsBuff, live, held, 8);
      TopByteWhole(bsBuff);
      ghost var before := arr2[..];
      var at := zbase + numZ;
      arr2[at] := TopByte(bsBuff, 56);
      Appended(before, arr2[..], zbase, at, [TopByte(bsBuff, 56)]);
      BytesToBitsConcat(before[zbase..at], [TopByte(bsBuff, 56)]);
      OneByte(TopByte(bsBuff, 56));
      Joins(BytesToBits(before[zbase..at]), ToBits(Shr(held, live - 8), 8), ToBits(r, live - 8));
      numZ := numZ + 1;
      bsBuff := Shl(bsBuff, 8) % WORD64;
      bsLive := bsLive - 8;
      held := r;
    }
  }

  // Zeros below the live bits may count as live.
  lemma PadHolds(buf: nat, live: nat, v: nat, pad: nat)
    requires Holds(buf, live, v) && live + pad <= 64
    ensures Holds(buf, live + pad, Shl(v, pad)) && ToBits(Shl(v, pad), live + pad) == ToBits(v, live) + ToBits(0, pad)
  {
    hide *;
    HoldsIs(buf, live, v);
    ShlPlus(v, pad, 64 - live - pad);
    ShlBelow(v, live, pad);
    MakeHolds(buf, live + pad, Shl(v, pad));
    ToBitsConcat(v, 0, live, pad);
  }

  lemma TopByteWhole(buf: nat)
    ensures Shr(buf, 56) < Pow2(8) ==> TopByte(buf, 56) == Shr(buf, 56)
  {
    Pow2Is64();
    hide Shr, Pow2;
  }

  lemma NoLiveBits(a: seq<bool>, v: nat)
    ensures a + ToBits(v, 0) == a
  {
  }

  lemma EmptyBuffer()
    ensures Holds(0, 0, 0) && ToBits(0, 0) == [] && BytesToBits([]) == []
  {
    ShlZero(64);
  }

  // Bytes written right after the slice base .. at extend it.
  lemma Appended(s: seq<Byte>, t: seq<Byte>, base: nat, at: nat, x: seq<Byte>)
    requires base <= at && at + |x| <= |s| == |t| && t[..at] == s[..at] && t[at..at + |x|] == x
    ensures t[base..at + |x|] == s[base..at] + x && t[..base] == s[..base]
  {
    assert t[base..at] == t[..at][base..] && s[base..at] == s[..at][base..];
    assert t[..base] == t[..at][..base] && s[..base] == s[..at][..base];
    assert t[base..at + |x|] == t[base..at] + t[at..at + |x|];
  }
}
