/**
 The look-up table of the bytewise CRC as it stands in the code, and the proof that every one
 of its words is what it is used as: the table is linear in the byte, and its entry for byte 1
 is x^32 modulo the generator.
 */
module CrcTable {
  import opened Bits
  import opened Gf2
  import Crc
  import FC = FoldConstants

  // BZ2_crc32Table, and crc32_s8[0], in rows of 16 words
  function Row(r: nat): (row: seq<bv32>)
    ensures |row| == 16
  {
    if r == 0 then [
      0x0000_0000, 0x04c1_1db7, 0x0982_3b6e, 0x0d43_26d9, 0x1304_76dc, 0x17c5_6b6b, 0x1a86_4db2, 0x1e47_5005,
      0x2608_edb8, 0x22c9_f00f, 0x2f8a_d6d6, 0x2b4b_cb61, 0x350c_9b64, 0x31cd_86d3, 0x3c8e_a00a, 0x384f_bdbd]
    else if r == 1 then [
      0x4c11_db70, 0x48d0_c6c7, 0x4593_e01e, 0x4152_fda9, 0x5f15_adac, 0x5bd4_b01b, 0x5697_96c2, 0x5256_8b75,
      0x6a19_36c8, 0x6ed8_2b7f, 0x639b_0da6, 0x675a_1011, 0x791d_4014, 0x7ddc_5da3, 0x709f_7b7a, 0x745e_66cd]
    else if r == 2 then [
      0x9823_b6e0, 0x9ce2_ab57, 0x91a1_8d8e, 0x9560_9039, 0x8b27_c03c, 0x8fe6_dd8b, 0x82a5_fb52, 0x8664_e6e5,
      0xbe2b_5b58, 0xbaea_46ef, 0xb7a9_6036, 0xb368_7d81, 0xad2f_2d84, 0xa9ee_3033, 0xa4ad_16ea, 0xa06c_0b5d]
    else if r == 3 then [
      0xd432_6d90, 0xd0f3_7027, 0xddb0_56fe, 0xd971_4b49, 0xc736_1b4c, 0xc3f7_06fb, 0xceb4_2022, 0xca75_3d95,
      0xf23a_8028, 0xf6fb_9d9f, 0xfbb8_bb46, 0xff79_a6f1, 0xe13e_f6f4, 0xe5ff_eb43, 0xe8bc_cd9a, 0xec7d_d02d]
    else if r == 4 then [
      0x3486_7077, 0x3047_6dc0, 0x3d04_4b19, 0x39c5_56ae, 0x2782_06ab, 0x2343_1b1c, 0x2e00_3dc5, 0x2ac1_2072,
      0x128e_9dcf, 0x164f_8078, 0x1b0c_a6a1, 0x1fcd_bb16, 0x018a_eb13, 0x054b_f6a4, 0x0808_d07d, 0x0cc9_cdca]
    else if r == 5 then [
      0x7897_ab07, 0x7c56_b6b0, 0x7115_9069, 0x75d4_8dde, 0x6b93_dddb, 0x6f52_c06c, 0x6211_e6b5, 0x66d0_fb02,
      0x5e9f_46bf, 0x5a5e_5b08, 0x571d_7dd1, 0x53dc_6066, 0x4d9b_3063, 0x495a_2dd4, 0x4419_0b0d, 0x40d8_16ba]
    else if r == 6 then [
      0xaca5_c697, 0xa864_db20, 0xa527_fdf9, 0xa1e6_e04e, 0xbfa1_b04b, 0xbb60_adfc, 0xb623_8b25, 0xb2e2_9692,
      0x8aad_2b2f, 0x8e6c_3698, 0x832f_1041, 0x87ee_0df6, 0x99a9_5df3, 0x9d68_4044, 0x902b_669d, 0x94ea_7b2a]
    else if r == 7 then [
      0xe0b4_1de7, 0xe475_0050, 0xe936_2689, 0xedf7_3b3e, 0xf3b0_6b3b, 0xf771_768c, 0xfa32_5055, 0xfef3_4de2,
      0xc6bc_f05f, 0xc27d_ede8, 0xcf3e_cb31, 0xcbff_d686, 0xd5b8_8683, 0xd179_9b34, 0xdc3a_bded, 0xd8fb_a05a]
    else if r == 8 then [
      0x690c_e0ee, 0x6dcd_fd59, 0x608e_db80, 0x644f_c637, 0x7a08_9632, 0x7ec9_8b85, 0x738a_ad5c, 0x774b_b0eb,
      0x4f04_0d56, 0x4bc5_10e1, 0x4686_3638, 0x4247_2b8f, 0x5c00_7b8a, 0x58c1_663d, 0x5582_40e4, 0x5143_5d53]
    else if r == 9 then [
      0x251d_3b9e, 0x21dc_2629, 0x2c9f_00f0, 0x285e_1d47, 0x3619_4d42, 0x32d8_50f5, 0x3f9b_762c, 0x3b5a_6b9b,
      0x0315_d626, 0x07d4_cb91, 0x0a97_ed48, 0x0e56_f0ff, 0x1011_a0fa, 0x14d0_bd4d, 0x1993_9b94, 0x1d52_8623]
    else if r == 10 then [
      0xf12f_560e, 0xf5ee_4bb9, 0xf8ad_6d60, 0xfc6c_70d7, 0xe22b_20d2, 0xe6ea_3d65, 0xeba9_1bbc, 0xef68_060b,
      0xd727_bbb6, 0xd3e6_a601, 0xdea5_80d8, 0xda64_9d6f, 0xc423_cd6a, 0xc0e2_d0dd, 0xcda1_f604, 0xc960_ebb3]
    else if r == 11 then [
      0xbd3e_8d7e, 0xb9ff_90c9, 0xb4bc_b610, 0xb07d_aba7, 0xae3a_fba2, 0xaafb_e615, 0xa7b8_c0cc, 0xa379_dd7b,
      0x9b36_60c6, 0x9ff7_7d71, 0x92b4_5ba8, 0x9675_461f, 0x8832_161a, 0x8cf3_0bad, 0x81b0_2d74, 0x8571_30c3]
    else if r == 12 then [
      0x5d8a_9099, 0x594b_8d2e, 0x5408_abf7, 0x50c9_b640, 0x4e8e_e645, 0x4a4f_fbf2, 0x470c_dd2b, 0x43cd_c09c,
      0x7b82_7d21, 0x7f43_6096, 0x7200_464f, 0x76c1_5bf8, 0x6886_0bfd, 0x6c47_164a, 0x6104_3093, 0x65c5_2d24]
    else if r == 13 then [
      0x119b_4be9, 0x155a_565e, 0x1819_7087, 0x1cd8_6d30, 0x029f_3d35, 0x065e_2082, 0x0b1d_065b, 0x0fdc_1bec,
      0x3793_a651, 0x3352_bbe6, 0x3e11_9d3f, 0x3ad0_8088, 0x2497_d08d, 0x2056_cd3a, 0x2d15_ebe3, 0x29d4_f654]
    else if r == 14 then [
      0xc5a9_2679, 0xc168_3bce, 0xcc2b_1d17, 0xc8ea_00a0, 0xd6ad_50a5, 0xd26c_4d12, 0xdf2f_6bcb, 0xdbee_767c,
      0xe3a1_cbc1, 0xe760_d676, 0xea23_f0af, 0xeee2_ed18, 0xf0a5_bd1d, 0xf464_a0aa, 0xf927_8673, 0xfde6_9bc4]
    else [
      0x89b8_fd09, 0x8d79_e0be, 0x803a_c667, 0x84fb_dbd0, 0x9abc_8bd5, 0x9e7d_9662, 0x933e_b0bb, 0x97ff_ad0c,
      0xafb0_10b1, 0xab71_0d06, 0xa632_2bdf, 0xa2f3_3668, 0xbcb4_666d, 0xb875_7bda, 0xb536_5d03, 0xb1f7_40b4]
  }

  function TableWord(i: Byte): bv32 { Row(i / 16)[i % 16] }

  // The number a machine word stands for.
  ghost function Word(w: bv32): nat { Val(FC.BitsOf(w)) }

  // ----- the table is linear

  // The entries for bytes 2i and 2i + 1, given the one for i.
  predicate Pair(w: bv32, even: bv32, odd: bv32) {
    even == FC.Times(w) && odd == even ^ 0x04c1_1db7
  }

  // A row, and the two rows that the doubles of its bytes fall into.
  predicate Doubles(row: seq<bv32>, low: seq<bv32>, high: seq<bv32>)
    requires |row| == |low| == |high| == 16
  {
    && Pair(row[0], low[0], low[1]) && Pair(row[1], low[2], low[3])
    && Pair(row[2], low[4], low[5]) && Pair(row[3], low[6], low[7])
    && Pair(row[4], low[8], low[9]) && Pair(row[5], low[10], low[11])
    && Pair(row[6], low[12], low[13]) && Pair(row[7], low[14], low[15])
    && Pair(row[8], high[0], high[1]) && Pair(row[9], high[2], high[3])
    && Pair(row[10], high[4], high[5]) && Pair(row[11], high[6], high[7])
    && Pair(row[12], high[8], high[9]) && Pair(row[13], high[10], high[11])
    && Pair(row[14], high[12], high[13]) && Pair(row[15], high[14], high[15])
  }

  lemma Rows0()
    ensures Doubles(Row(0), Row(0), Row(1))
  {
  }

  lemma Rows1()
    ensures Doubles(Row(1), Row(2), Row(3))
  {
  }

  lemma Rows2()
    ensures Doubles(Row(2), Row(4), Row(5))
  {
  }

  lemma Rows3()
    ensures Doubles(Row(3), Row(6), Row(7))
  {
  }

  lemma Rows4()
    ensures Doubles(Row(4), Row(8), Row(9))
  {
  }

  lemma Rows5()
    ensures Doubles(Row(5), Row(10), Row(11))
  {
  }

  lemma Rows6()
    ensures Doubles(Row(6), Row(12), Row(13))
  {
  }

  lemma Rows7()
    ensures Doubles(Row(7), Row(14), Row(15))
  {
  }

  lemma RowsDouble(r: nat)
    requires r < 8
    ensures Doubles(Row(r), Row(2 * r), Row(2 * r + 1))
  {
    hide *;
    if r == 0 { Rows0(); }
    else if r == 1 { Rows1(); }
    else if r == 2 { Rows2(); }
    else if r == 3 { Rows3(); }
    else if r == 4 { Rows4(); }
    else if r == 5 { Rows5(); }
    else if r == 6 { Rows6(); }
    else { Rows7(); }
  }

  // One pair out of the sixteen.
  lemma DoublesAt(row: seq<bv32>, low: seq<bv32>, high: seq<bv32>, c: nat)
    requires |row| == |low| == |high| == 16 && Doubles(row, low, high) && c < 16
    ensures c < 8 ==> Pair(row[c], low[2 * c], low[2 * c + 1])
    ensures 8 <= c ==> Pair(row[c], high[2 * c - 16], high[2 * c - 15])
  {
    hide Pair, FC.Times;
    assert c < 8 ==> c == 0 || c == 1 || c == 2 || c == 3 || c == 4 || c == 5 || c == 6 || c == 7;
    assert 8 <= c ==> c == 8 || c == 9 || c == 10 || c == 11 || c == 12 || c == 13 || c == 14 || c == 15;
  }

  lemma TableDoubles(i: Byte)
    requires i < 128
    ensures Pair(TableWord(i), TableWord(2 * i), TableWord(2 * i + 1))
  {
    hide Row, Pair, Doubles;
    var r, c := i / 16, i % 16;
    RowsDouble(r);
    DoublesAt(Row(r), Row(2 * r), Row(2 * r + 1), c);
    assert 2 * i / 16 == (if c < 8 then 2 * r else 2 * r + 1) && 2 * i % 16 == 2 * c % 16;
    assert (2 * i + 1) / 16 == 2 * i / 16 && (2 * i + 1) % 16 == 2 * c % 16 + 1;
  }

  // ----- words and polynomials

  lemma {:induction false} ValXor(s: seq<bool>, t: seq<bool>, u: seq<bool>)
    requires |s| == |t| == |u| && forall k :: 0 <= k < |s| ==> u[k] == (s[k] != t[k])
    ensures Val(u) == Xor(Val(s), Val(t))
    decreases |s|
  {
    hide *;
    if s == [] {
      XorZero(0);
      NoBits();
    } else {
      var n := |s| - 1;
      ValXor(s[..n], t[..n], u[..n]);
      XorUnfold(Val(s), Val(t));
      LastBit(s);
      LastBit(t);
      LastBit(u);
    }
  }

  lemma NoBits()
    ensures Val([]) == 0
  {
  }

  lemma LastBit(s: seq<bool>)
    requires s != []
    ensures var n := |s| - 1; Val(s) / 2 == Val(s[..n]) && Val(s) == 2 * Val(s[..n]) + (if s[n] then 1 else 0)
  {
  }

  predicate FlagFits(a: bv32, b: bv32, k: nat)
    requires k < 32
  {
    FC.B(a ^ b, k) == (FC.B(a, k) != FC.B(b, k))
  }

  lemma FlagsXor0(a: bv32, b: bv32)
    ensures FlagFits(a, b, 0)
    ensures FlagFits(a, b, 1)
    ensures FlagFits(a, b, 2)
    ensures FlagFits(a, b, 3)
    ensures FlagFits(a, b, 4)
    ensures FlagFits(a, b, 5)
    ensures FlagFits(a, b, 6)
    ensures FlagFits(a, b, 7)
  {
  }

  lemma FlagsXor1(a: bv32, b: bv32)
    ensures FlagFits(a, b, 8)
    ensures FlagFits(a, b, 9)
    ensures FlagFits(a, b, 10)
    ensures FlagFits(a, b, 11)
    ensures FlagFits(a, b, 12)
    ensures FlagFits(a, b, 13)
    ensures FlagFits(a, b, 14)
    ensures FlagFits(a, b, 15)
  {
  }

  lemma FlagsXor2(a: bv32, b: bv32)
    ensures FlagFits(a, b, 16)
    ensures FlagFits(a, b, 17)
    ensures FlagFits(a, b, 18)
    ensures FlagFits(a, b, 19)
    ensures FlagFits(a, b, 20)
    ensures FlagFits(a, b, 21)
    ensures FlagFits(a, b, 22)
    ensures FlagFits(a, b, 23)
  {
  }

  lemma FlagsXor3(a: bv32, b: bv32)
    ensures FlagFits(a, b, 24)
    ensures FlagFits(a, b, 25)
    ensures FlagFits(a, b, 26)
    ensures FlagFits(a, b, 27)
    ensures FlagFits(a, b, 28)
    ensures FlagFits(a, b, 29)
    ensures FlagFits(a, b, 30)
    ensures FlagFits(a, b, 31)
  {
  }

  lemma FlagXor(a: bv32, b: bv32, k: nat)
    requires k < 32
    ensures FlagFits(a, b, k)
  {
    hide *;
    FlagsXor0(a, b);
    FlagsXor1(a, b);
    FlagsXor2(a, b);
    FlagsXor3(a, b);
  }

  lemma WordXor(a: bv32, b: bv32)
    ensures Word(a ^ b) == Xor(Word(a), Word(b))
  {
    hide Val, Xor, FC.B;
    var s, t, u := FC.BitsOf(a), FC.BitsOf(b), FC.BitsOf(a ^ b);
    forall k | 0 <= k < 32
      ensures u[k] == (s[k] != t[k])
    {
      FlagXor(a, b, 31 - k);
    }
    ValXor(s, t, u);
  }

  // The entry for 2i is x times that for i; the one for 2i + 1 adds x^32.
  lemma EntryDoubles(i: nat)
    requires i < 128
    ensures Crc.Entry(i) < TOP32 && Crc.Entry(2 * i) == MulX(Crc.Entry(i))
    ensures Crc.Entry(2 * i + 1) == Xor(Crc.Entry(2 * i), POLY)
  {
    hide *;
    var a := Shl(i, 24);
    Crc.EntryIs(i);
    Crc.EntryIs(2 * i);
    Crc.EntryIs(2 * i + 1);
    Crc.EntryIs(1);
    Tops(i);
    MulXNMulX(a, 8);
    MulXNXor(Shl(2 * i, 24), Shl(1, 24), 8);
    EntryOne();
  }

  lemma Tops(i: nat)
    requires i < 128
    ensures Shl(i, 24) < TOP32 && Shl(2 * i, 24) == MulX(Shl(i, 24))
    ensures Shl(2 * i + 1, 24) == Xor(Shl(2 * i, 24), Shl(1, 24))
  {
    hide Xor, Shl;
    Crc.ByteTop(i);
    Crc.ByteTop(2 * i);
    XorShl(2 * i, 1, 24);
    XorOdd(i);
  }

  lemma XorOdd(i: nat)
    ensures Xor(2 * i, 1) == 2 * i + 1
  {
    XorUnfold(2 * i, 1);
    XorZero(i);
  }

  lemma EntryOne()
    ensures Crc.Entry(1) == POLY
  {
    hide *;
    Crc.EntryIs(1);
    Small();
    MulXNShift(1, 24);
    MulXNPlus(1, 24, 8);
    FC.Power32();
    FC.Value32();
    PowerValue(0x04c1_1db7, 32);
  }

  lemma PowerValue(w: bv32, n: nat)
    requires FC.IsPower(w, n)
    ensures 1 < TOP32 && Val(FC.BitsOf(w)) == MulXN(1, n)
  {
    hide Val, MulXN;
  }

  lemma Small()
    ensures 1 < TOP32 && POLY == 0x04c1_1db7
  {
  }

  /** Every word of the table is the entry the CRC step is proved with. */
  lemma {:induction false} TableIsEntry(i: Byte)
    ensures Word(TableWord(i)) == Crc.Entry(i)
    decreases i
  {
    hide *;
    if i == 0 {
      FirstWord();
    } else {
      var h := i / 2;
      TableIsEntry(h);
      TableDoubles(h);
      EntryDoubles(h);
      PairWords(TableWord(h), TableWord(2 * h), TableWord(2 * h + 1));
      assert i == 2 * h || i == 2 * h + 1;
    }
  }

  lemma PairWords(w: bv32, even: bv32, odd: bv32)
    requires Pair(w, even, odd)
    ensures Word(w) < TOP32 && Word(even) == MulX(Word(w)) && Word(odd) == Xor(Word(even), POLY)
  {
    hide FC.Times, FC.BitsOf, Xor, Val, MulX;
    FC.Value32();
    FC.TimesIsMulX(w);
    WordXor(even, 0x04c1_1db7);
  }

  lemma FirstWord()
    ensures Word(TableWord(0)) == Crc.Entry(0)
  {
    hide Val, Xor;
    Crc.EntryIs(0);
    Crc.ByteTop(0);
    MulXNZero(8);
    WordXor(0, 0);
    XorZero(Word(0));
    assert 0 as bv32 ^ 0 == 0;
  }
}
