/** The block checksum's register, bit by bit, through the bytes "123456789" and "a". */
module CrcDigits {
  import opened XorWords
  import B = BlockCrc

  /** Eight zero bits, register by register. */
  lemma {:induction false} ZerosWalk(x: seq<bv32>, k: nat)
    requires |x| == 9 && k <= 8 && forall j :: 0 <= j < 8 ==> B.BitIn(x[j], false) == x[j + 1]
    ensures B.Zeros(8 - k, x[k]) == x[8]
    decreases 8 - k
  {
    hide B.BitIn;
    if k < 8 { ZerosWalk(x, k + 1); }
  }

  lemma StepOf(c: bv32, b: bv32, x: seq<bv32>)
    requires |x| == 9 && x[0] == B.RaiseTop(Xor(B.Top(c), b)) && forall k :: 0 <= k < 8 ==> B.BitIn(x[k], false) == x[k + 1]
    ensures B.UpdateTable(c, b) == Xor(B.Up8(c), x[8])
  {
    hide B.BitIn, B.RaiseTop, B.Zeros, B.Top, B.Up8, Xor;
    ZerosWalk(x, 0);
  }

  lemma EntryBits()
    ensures B.BitIn(0x0100_0000, false) == 0x0200_0000 && B.BitIn(0x0200_0000, false) == 0x0400_0000
    ensures B.BitIn(0x0400_0000, false) == 0x0800_0000 && B.BitIn(0x0800_0000, false) == 0x1000_0000
    ensures B.BitIn(0x1000_0000, false) == 0x2000_0000 && B.BitIn(0x2000_0000, false) == 0x4000_0000
    ensures B.BitIn(0x4000_0000, false) == 0x8000_0000 && B.BitIn(0x8000_0000, false) == 0x04c1_1db7
  {
  }

  lemma EntryOne()
    ensures B.Table(1) == 0x04c1_1db7
  {
    hide *;
    EntryBits();
    TableIs(1);
    RaisedOne();
    ZerosWalk([0x0100_0000, 0x0200_0000, 0x0400_0000, 0x0800_0000, 0x1000_0000,
      0x2000_0000, 0x4000_0000, 0x8000_0000, 0x04c1_1db7], 0);
  }

  lemma TableIs(i: bv32)
    ensures B.Table(i) == B.Zeros(8, B.RaiseTop(i))
  {
    hide B.Zeros, B.RaiseTop;
  }

  lemma RaisedOne()
    ensures B.RaiseTop(1) == 0x0100_0000
  {
  }

  lemma OneBits()
    ensures B.BitIn(0xce00_0000, false) == 0x98c1_1db7 && B.BitIn(0x98c1_1db7, false) == 0x3543_26d9
    ensures B.BitIn(0x3543_26d9, false) == 0x6a86_4db2 && B.BitIn(0x6a86_4db2, false) == 0xd50c_9b64
    ensures B.BitIn(0xd50c_9b64, false) == 0xaed8_2b7f && B.BitIn(0xaed8_2b7f, false) == 0x5971_4b49
    ensures B.BitIn(0x5971_4b49, false) == 0xb2e2_9692 && B.BitIn(0xb2e2_9692, false) == 0x6104_3093
  {
  }

  lemma OneEnds()
    ensures B.RaiseTop(Xor(B.Top(0xffff_ffff), 0x31)) == 0xce00_0000 && Xor(B.Up8(0xffff_ffff), 0x6104_3093) == 0x9efb_cf93
  {
  }

  lemma One()
    ensures B.UpdateTable(0xffff_ffff, 0x31) == 0x9efb_cf93
  {
    hide *;
    OneBits();
    OneEnds();
    StepOf(0xffff_ffff, 0x31, [0xce00_0000, 0x98c1_1db7, 0x3543_26d9, 0x6a86_4db2, 0xd50c_9b64,
      0xaed8_2b7f, 0x5971_4b49, 0xb2e2_9692, 0x6104_3093]);
  }

  lemma TwoBits()
    ensures B.BitIn(0xac00_0000, false) == 0x5cc1_1db7 && B.BitIn(0x5cc1_1db7, false) == 0xb982_3b6e
    ensures B.BitIn(0xb982_3b6e, false) == 0x77c5_6b6b && B.BitIn(0x77c5_6b6b, false) == 0xef8a_d6d6
    ensures B.BitIn(0xef8a_d6d6, false) == 0xdbd4_b01b && B.BitIn(0xdbd4_b01b, false) == 0xb368_7d81
    ensures B.BitIn(0xb368_7d81, false) == 0x6211_e6b5 && B.BitIn(0x6211_e6b5, false) == 0xc423_cd6a
  {
  }

  lemma TwoEnds()
    ensures B.RaiseTop(Xor(B.Top(0x9efb_cf93), 0x32)) == 0xac00_0000 && Xor(B.Up8(0x9efb_cf93), 0xc423_cd6a) == 0x3fec_5e6a
  {
  }

  lemma Two()
    ensures B.UpdateTable(0x9efb_cf93, 0x32) == 0x3fec_5e6a
  {
    hide *;
    TwoBits();
    TwoEnds();
    StepOf(0x9efb_cf93, 0x32, [0xac00_0000, 0x5cc1_1db7, 0xb982_3b6e, 0x77c5_6b6b, 0xef8a_d6d6,
      0xdbd4_b01b, 0xb368_7d81, 0x6211_e6b5, 0xc423_cd6a]);
  }

  lemma ThreeBits()
    ensures B.BitIn(0x0c00_0000, false) == 0x1800_0000 && B.BitIn(0x1800_0000, false) == 0x3000_0000
    ensures B.BitIn(0x3000_0000, false) == 0x6000_0000 && B.BitIn(0x6000_0000, false) == 0xc000_0000
    ensures B.BitIn(0xc000_0000, false) == 0x84c1_1db7 && B.BitIn(0x84c1_1db7, false) == 0x0d43_26d9
    ensures B.BitIn(0x0d43_26d9, false) == 0x1a86_4db2 && B.BitIn(0x1a86_4db2, false) == 0x350c_9b64
  {
  }

  lemma ThreeEnds()
    ensures B.RaiseTop(Xor(B.Top(0x3fec_5e6a), 0x33)) == 0x0c00_0000 && Xor(B.Up8(0x3fec_5e6a), 0x350c_9b64) == 0xd952_f164
  {
  }

  lemma Three()
    ensures B.UpdateTable(0x3fec_5e6a, 0x33) == 0xd952_f164
  {
    hide *;
    ThreeBits();
    ThreeEnds();
    StepOf(0x3fec_5e6a, 0x33, [0x0c00_0000, 0x1800_0000, 0x3000_0000, 0x6000_0000, 0xc000_0000,
      0x84c1_1db7, 0x0d43_26d9, 0x1a86_4db2, 0x350c_9b64]);
  }

  lemma FourBits()
    ensures B.BitIn(0xed00_0000, false) == 0xdec1_1db7 && B.BitIn(0xdec1_1db7, false) == 0xb943_26d9
    ensures B.BitIn(0xb943_26d9, false) == 0x7647_5005 && B.BitIn(0x7647_5005, false) == 0xec8e_a00a
    ensures B.BitIn(0xec8e_a00a, false) == 0xdddc_5da3 && B.BitIn(0xdddc_5da3, false) == 0xbf79_a6f1
    ensures B.BitIn(0xbf79_a6f1, false) == 0x7a32_5055 && B.BitIn(0x7a32_5055, false) == 0xf464_a0aa
  {
  }

  lemma FourEnds()
    ensures B.RaiseTop(Xor(B.Top(0xd952_f164), 0x34)) == 0xed00_0000 && Xor(B.Up8(0xd952_f164), 0xf464_a0aa) == 0xa695_c4aa
  {
  }

  lemma Four()
    ensures B.UpdateTable(0xd952_f164, 0x34) == 0xa695_c4aa
  {
    hide *;
    FourBits();
    FourEnds();
    StepOf(0xd952_f164, 0x34, [0xed00_0000, 0xdec1_1db7, 0xb943_26d9, 0x7647_5005, 0xec8e_a00a,
      0xdddc_5da3, 0xbf79_a6f1, 0x7a32_5055, 0xf464_a0aa]);
  }

  lemma FiveBits()
    ensures B.BitIn(0x9300_0000, false) == 0x22c1_1db7 && B.BitIn(0x22c1_1db7, false) == 0x4582_3b6e
    ensures B.BitIn(0x4582_3b6e, false) == 0x8b04_76dc && B.BitIn(0x8b04_76dc, false) == 0x12c9_f00f
    ensures B.BitIn(0x12c9_f00f, false) == 0x2593_e01e && B.BitIn(0x2593_e01e, false) == 0x4b27_c03c
    ensures B.BitIn(0x4b27_c03c, false) == 0x964f_8078 && B.BitIn(0x964f_8078, false) == 0x285e_1d47
  {
  }

  lemma FiveEnds()
    ensures B.RaiseTop(Xor(B.Top(0xa695_c4aa), 0x35)) == 0x9300_0000 && Xor(B.Up8(0xa695_c4aa), 0x285e_1d47) == 0xbd9a_b747
  {
  }

  lemma Five()
    ensures B.UpdateTable(0xa695_c4aa, 0x35) == 0xbd9a_b747
  {
    hide *;
    FiveBits();
    FiveEnds();
    StepOf(0xa695_c4aa, 0x35, [0x9300_0000, 0x22c1_1db7, 0x4582_3b6e, 0x8b04_76dc, 0x12c9_f00f,
      0x2593_e01e, 0x4b27_c03c, 0x964f_8078, 0x285e_1d47]);
  }

  lemma SixBits()
    ensures B.BitIn(0x8b00_0000, false) == 0x12c1_1db7 && B.BitIn(0x12c1_1db7, false) == 0x2582_3b6e
    ensures B.BitIn(0x2582_3b6e, false) == 0x4b04_76dc && B.BitIn(0x4b04_76dc, false) == 0x9608_edb8
    ensures B.BitIn(0x9608_edb8, false) == 0x28d0_c6c7 && B.BitIn(0x28d0_c6c7, false) == 0x51a1_8d8e
    ensures B.BitIn(0x51a1_8d8e, false) == 0xa343_1b1c && B.BitIn(0xa343_1b1c, false) == 0x4247_2b8f
  {
  }

  lemma SixEnds()
    ensures B.RaiseTop(Xor(B.Top(0xbd9a_b747), 0x36)) == 0x8b00_0000 && Xor(B.Up8(0xbd9a_b747), 0x4247_2b8f) == 0xd8f0_6c8f
  {
  }

  lemma Six()
    ensures B.UpdateTable(0xbd9a_b747, 0x36) == 0xd8f0_6c8f
  {
    hide *;
    SixBits();
    SixEnds();
    StepOf(0xbd9a_b747, 0x36, [0x8b00_0000, 0x12c1_1db7, 0x2582_3b6e, 0x4b04_76dc, 0x9608_edb8,
      0x28d0_c6c7, 0x51a1_8d8e, 0xa343_1b1c, 0x4247_2b8f]);
  }

  lemma SevenBits()
    ensures B.BitIn(0xef00_0000, false) == 0xdac1_1db7 && B.BitIn(0xdac1_1db7, false) == 0xb143_26d9
    ensures B.BitIn(0xb143_26d9, false) == 0x6647_5005 && B.BitIn(0x6647_5005, false) == 0xcc8e_a00a
    ensures B.BitIn(0xcc8e_a00a, false) == 0x9ddc_5da3 && B.BitIn(0x9ddc_5da3, false) == 0x3f79_a6f1
    ensures B.BitIn(0x3f79_a6f1, false) == 0x7ef3_4de2 && B.BitIn(0x7ef3_4de2, false) == 0xfde6_9bc4
  {
  }

  lemma SevenEnds()
    ensures B.RaiseTop(Xor(B.Top(0xd8f0_6c8f), 0x37)) == 0xef00_0000 && Xor(B.Up8(0xd8f0_6c8f), 0xfde6_9bc4) == 0x0d8a_14c4
  {
  }

  lemma Seven()
    ensures B.UpdateTable(0xd8f0_6c8f, 0x37) == 0x0d8a_14c4
  {
    hide *;
    SevenBits();
    SevenEnds();
    StepOf(0xd8f0_6c8f, 0x37, [0xef00_0000, 0xdac1_1db7, 0xb143_26d9, 0x6647_5005, 0xcc8e_a00a,
      0x9ddc_5da3, 0x3f79_a6f1, 0x7ef3_4de2, 0xfde6_9bc4]);
  }

  lemma EightBits()
    ensures B.BitIn(0x3500_0000, false) == 0x6a00_0000 && B.BitIn(0x6a00_0000, false) == 0xd400_0000
    ensures B.BitIn(0xd400_0000, false) == 0xacc1_1db7 && B.BitIn(0xacc1_1db7, false) == 0x5d43_26d9
    ensures B.BitIn(0x5d43_26d9, false) == 0xba86_4db2 && B.BitIn(0xba86_4db2, false) == 0x71cd_86d3
    ensures B.BitIn(0x71cd_86d3, false) == 0xe39b_0da6 && B.BitIn(0xe39b_0da6, false) == 0xc3f7_06fb
  {
  }

  lemma EightEnds()
    ensures B.RaiseTop(Xor(B.Top(0x0d8a_14c4), 0x38)) == 0x3500_0000 && Xor(B.Up8(0x0d8a_14c4), 0xc3f7_06fb) == 0x49e3_c2fb
  {
  }

  lemma Eight()
    ensures B.UpdateTable(0x0d8a_14c4, 0x38) == 0x49e3_c2fb
  {
    hide *;
    EightBits();
    EightEnds();
    StepOf(0x0d8a_14c4, 0x38, [0x3500_0000, 0x6a00_0000, 0xd400_0000, 0xacc1_1db7, 0x5d43_26d9,
      0xba86_4db2, 0x71cd_86d3, 0xe39b_0da6, 0xc3f7_06fb]);
  }

  lemma NineBits()
    ensures B.BitIn(0x7000_0000, false) == 0xe000_0000 && B.BitIn(0xe000_0000, false) == 0xc4c1_1db7
    ensures B.BitIn(0xc4c1_1db7, false) == 0x8d43_26d9 && B.BitIn(0x8d43_26d9, false) == 0x1e47_5005
    ensures B.BitIn(0x1e47_5005, false) == 0x3c8e_a00a && B.BitIn(0x3c8e_a00a, false) == 0x791d_4014
    ensures B.BitIn(0x791d_4014, false) == 0xf23a_8028 && B.BitIn(0xf23a_8028, false) == 0xe0b4_1de7
  {
  }

  lemma NineEnds()
    ensures B.RaiseTop(Xor(B.Top(0x49e3_c2fb), 0x39)) == 0x7000_0000 && Xor(B.Up8(0x49e3_c2fb), 0xe0b4_1de7) == 0x0376_e6e7
  {
  }

  lemma Nine()
    ensures B.UpdateTable(0x49e3_c2fb, 0x39) == 0x0376_e6e7
  {
    hide *;
    NineBits();
    NineEnds();
    StepOf(0x49e3_c2fb, 0x39, [0x7000_0000, 0xe000_0000, 0xc4c1_1db7, 0x8d43_26d9, 0x1e47_5005,
      0x3c8e_a00a, 0x791d_4014, 0xf23a_8028, 0xe0b4_1de7]);
  }

  lemma LetterABits()
    ensures B.BitIn(0x9e00_0000, false) == 0x38c1_1db7 && B.BitIn(0x38c1_1db7, false) == 0x7182_3b6e
    ensures B.BitIn(0x7182_3b6e, false) == 0xe304_76dc && B.BitIn(0xe304_76dc, false) == 0xc2c9_f00f
    ensures B.BitIn(0xc2c9_f00f, false) == 0x8152_fda9 && B.BitIn(0x8152_fda9, false) == 0x0664_e6e5
    ensures B.BitIn(0x0664_e6e5, false) == 0x0cc9_cdca && B.BitIn(0x0cc9_cdca, false) == 0x1993_9b94
  {
  }

  lemma LetterAEnds()
    ensures B.RaiseTop(Xor(B.Top(0xffff_ffff), 0x61)) == 0x9e00_0000 && Xor(B.Up8(0xffff_ffff), 0x1993_9b94) == 0xe66c_6494
  {
  }

  lemma LetterA()
    ensures B.UpdateTable(0xffff_ffff, 0x61) == 0xe66c_6494
  {
    hide *;
    LetterABits();
    LetterAEnds();
    StepOf(0xffff_ffff, 0x61, [0x9e00_0000, 0x38c1_1db7, 0x7182_3b6e, 0xe304_76dc, 0xc2c9_f00f,
      0x8152_fda9, 0x0664_e6e5, 0x0cc9_cdca, 0x1993_9b94]);
  }
}
