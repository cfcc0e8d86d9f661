/** The block of section 2.3.2 of RFC 7539, round by round. */
module ChaCha20Vector {
  import opened ChaCha20
  import opened MachineWords
  import opened Words

  type MachineState = s: seq<bv32> | |s| == 16 witness [0, 0, 0, 0, 0, 0, 0, 0, 0, 0, 0, 0, 0, 0, 0, 0]

  function ToState(s: MachineState): State {
    seq(16, i requires 0 <= i < 16 => Word(s[i]))
  }

  lemma QuarterRoundOf(w: MachineState, i: nat, j: nat, k: nat, l: nat, a: bv32, b: bv32, c: bv32, d: bv32,
      a1: bv32, d1: bv32, c1: bv32, b1: bv32, a2: bv32, d2: bv32, c2: bv32, b2: bv32) returns (v: MachineState)
    requires i < 16 && j < 16 && k < 16 && l < 16 && i != j && i != k && i != l && j != k && j != l && k != l
    requires w[i] == a && w[j] == b && w[k] == c && w[l] == d
    requires a1 == a + b && d1 == ((d ^ a1) << 16) | ((d ^ a1) >> 16)
    requires c1 == c + d1 && b1 == ((b ^ c1) << 12) | ((b ^ c1) >> 20)
    requires a2 == a1 + b1 && d2 == ((d1 ^ a2) << 8) | ((d1 ^ a2) >> 24)
    requires c2 == c1 + d2 && b2 == ((b1 ^ c2) << 7) | ((b1 ^ c2) >> 25)
    ensures v == w[i := a2][j := b2][k := c2][l := d2]
    ensures QuarterRound(ToState(w), i, j, k, l) == ToState(v)
  {
    hide QuarterRound;
    hide Word;
    v := w[i := a2][j := b2][k := c2][l := d2];
    QuarterRoundIs(ToState(w), i, j, k, l, a, b, c, d, a1, d1, c1, b1, a2, d2, c2, b2);
    assert ToState(v) == ToState(w)[i := Word(a2)][j := Word(b2)][k := Word(c2)][l := Word(d2)];
  }

  const STATE0: MachineState :=
    [0x6170_7865, 0x3320_646e, 0x7962_2d32, 0x6b20_6574,
     0x0302_0100, 0x0706_0504, 0x0b0a_0908, 0x0f0e_0d0c,
     0x1312_1110, 0x1716_1514, 0x1b1a_1918, 0x1f1e_1d1c,
     0x0000_0001, 0x0900_0000, 0x4a00_0000, 0x0000_0000]

  const MIDDLE1: MachineState :=
    [0xabba_a25c, 0x1efa_51ea, 0x7354_fbdf, 0x83d2_dc69,
     0x3a46_5196, 0x1c7e_64f6, 0xb12f_b628, 0xf05b_6976,
     0x6b3c_a454, 0x08eb_14b1, 0xbf8a_9ac9, 0xe444_df3b,
     0xdec6_2ed2, 0x8862_cc77, 0x6e35_b345, 0x52a6_47f1]

  const STATE1: MachineState :=
    [0xcd52_e917, 0x85ab_03b4, 0xb345_7395, 0xf96d_e7dd,
     0xc4b7_cd22, 0x5c2e_187a, 0xc95e_b461, 0x316c_801a,
     0x7bf7_d740, 0x7edd_d644, 0xf1a1_bdf5, 0x7612_46ca,
     0x6b0d_58a3, 0x6798_471a, 0xd737_f167, 0xf173_888d]

  const MIDDLE2: MachineState :=
    [0xe3e1_111b, 0xa629_1491, 0x5a82_b80c, 0x4500_fd45,
     0xd65b_5b5b, 0xf56a_f099, 0x4ccc_8103, 0xc94d_29e2,
     0xe67a_ec54, 0xf7a5_2d82, 0xdb47_0914, 0xdfb4_0f1d,
     0x7be8_1c0d, 0x1d92_d0fd, 0x1313_9f8c, 0x7a26_ecaa]

  const STATE2: MachineState :=
    [0xcf1a_7584, 0x0489_27ec, 0x5405_1fda, 0xc244_ff28,
     0x901d_2f40, 0x7974_b81c, 0x378d_cfb4, 0xcd47_fd0e,
     0x2daf_b216, 0x27c8_9cd6, 0xcd3c_9aa0, 0x79fc_89c7,
     0x10ae_f18d, 0x1621_8765, 0x68f7_6705, 0x04d6_ee22]

  const MIDDLE3: MachineState :=
    [0xa226_95f2, 0xa908_cf6c, 0xe6ae_05b2, 0xfe0f_f04b,
     0x1ece_4458, 0xe82b_726f, 0x5a21_ab90, 0x8769_8c64,
     0xf2d3_6da6, 0xf4da_b980, 0x7baf_5573, 0xa78c_270d,
     0x6fda_6bf7, 0x65a4_b0ce, 0x25e6_d76e, 0x1b7b_11ec]

  const STATE3: MachineState :=
    [0x03a1_4032, 0x66b1_5927, 0x9d6b_6b42, 0xb84c_4109,
     0xa714_3ae0, 0xa09b_33dd, 0xa5da_af88, 0x2fd9_1a73,
     0xc90c_6b18, 0x5a20_2413, 0xc20e_01b6, 0x72cd_6b74,
     0xba35_d777, 0xb360_f1bf, 0x8178_315b, 0x2cd1_1b1a]

  const MIDDLE4: MachineState :=
    [0xfecd_0838, 0x160a_b468, 0x9a0d_df4e, 0xbac7_154a,
     0xcedf_6624, 0xb11d_e6c4, 0xbd78_10ef, 0xd22b_5643,
     0x1d8a_33ea, 0x87dc_1ca9, 0x89bd_34a5, 0x5505_ef62,
     0xa818_b852, 0xb100_446a, 0x9c1d_70b1, 0xa1d1_befa]

  const STATE4: MachineState :=
    [0x9a2d_3589, 0x0b23_fc4e, 0x40af_3b6b, 0xceea_8144,
     0x0a1b_ffc6, 0x5e59_93f7, 0x9904_c2e7, 0x0d33_4718,
     0xe46c_6354, 0xc950_3229, 0x04fe_f5aa, 0xf893_3f72,
     0x2687_d476, 0x54e6_5231, 0x3594_ffc5, 0x2b3b_b2ca]

  const MIDDLE5: MachineState :=
    [0x85e7_824a, 0x4940_cd9e, 0xfbe7_684b, 0x7335_d03d,
     0x1c13_3ea1, 0xbba4_0b0f, 0x9413_992a, 0xa4ab_2040,
     0xa3a6_6a86, 0xc0b4_754f, 0x771b_4ecb, 0x1651_51a1,
     0xde00_8464, 0x34f0_058b, 0x7084_6cfa, 0xa327_1b09]

  const STATE5: MachineState :=
    [0xc533_18c5, 0xca32_5d96, 0x7e7d_11cb, 0x3404_e2ca,
     0x26d7_cf73, 0x6088_d379, 0xc0f0_e9bd, 0xe310_cdb9,
     0xae2c_a8db, 0x42f6_7c72, 0x7166_9aca, 0x975c_171d,
     0x9e5e_c228, 0x7d85_a9f3, 0x201d_0756, 0x63fa_6953]

  const MIDDLE6: MachineState :=
    [0x9950_b826, 0xcac7_ccc6, 0x84a6_7673, 0xdb31_09a6,
     0x2121_065a, 0xc12b_dadb, 0xcae3_acd1, 0x5946_16cb,
     0x1907_8de2, 0x178e_cc02, 0xe6ad_bdb2, 0x52a9_d50e,
     0x40ca_72b3, 0x3b9b_f852, 0x7869_0378, 0xe17d_4902]

  const STATE6: MachineState :=
    [0x04a3_131a, 0x6617_6309, 0x0415_bab1, 0x61b8_80a2,
     0x36cc_86c7, 0xbf8a_4465, 0xf77d_d720, 0xfc0b_dc90,
     0x07d1_3aca, 0xeb0b_e9af, 0x6159_9491, 0x9185_12dc,
     0x33b6_686d, 0x795c_c671, 0xc004_9972, 0xa0a8_1bde]

  const MIDDLE7: MachineState :=
    [0x57c5_e6da, 0x35ce_46a8, 0x0c04_1bb9, 0xfa91_df79,
     0x8e85_d82f, 0xb481_9d06, 0xb63b_e200, 0xacd2_21e4,
     0x434b_4749, 0x1d45_9c00, 0x111c_fe2c, 0x5594_2604,
     0x49ee_03a6, 0xd11a_5554, 0xa720_2e04, 0x7d22_15bc]

  const STATE7: MachineState :=
    [0x9b70_f51f, 0x7ea8_ac11, 0x21e5_4da9, 0xca39_3b2f,
     0x93b0_8686, 0x6a4c_50ae, 0x1921_2a5a, 0x9b03_2958,
     0xd839_165e, 0x4c06_e28a, 0xd3fd_e99e, 0x26ac_c13d,
     0xa609_f555, 0x2c24_6549, 0x9515_1853, 0x2c84_7a0d]

  const MIDDLE8: MachineState :=
    [0xc0b1_8aee, 0x0874_45ba, 0x36e5_2ad9, 0xa777_426a,
     0xdeb5_4e9c, 0x802c_883b, 0x06e8_6889, 0x3c00_2680,
     0xa82d_65d4, 0x687f_11eb, 0xe9d3_6207, 0x4242_ddae,
     0x4103_c64e, 0x8281_6a91, 0xb584_ca56, 0xfd0b_d2b9]

  const STATE8: MachineState :=
    [0xca5c_85dd, 0x93a4_f90e, 0xd9f0_df58, 0x26dd_82dd,
     0x9825_63f8, 0x712a_a9ff, 0x279a_61e8, 0x970f_72bd,
     0x1c25_931a, 0x5180_bb10, 0x779c_27e7, 0x5407_7e08,
     0xa9b7_51fb, 0x382f_3ce2, 0x8db1_757d, 0xcc38_080b]

  const MIDDLE9: MachineState :=
    [0x765c_6e9c, 0x5ab0_9b11, 0x3ee7_da04, 0x37c3_1203,
     0x9046_ecaa, 0x7b88_d882, 0xb9b5_77dd, 0x156d_e7ed,
     0x46fa_091e, 0x5117_e9b5, 0x862f_f22b, 0xa3fc_c7a6,
     0x72a5_aace, 0x5fa7_f1c5, 0xda56_3e0a, 0x5263_d7ca]

  const STATE9: MachineState :=
    [0xb6b8_7de6, 0x9a01_6148, 0x9385_9815, 0x4915_e6cc,
     0xdc33_c122, 0x98e1_8fa3, 0x5ffb_e8fc, 0xf715_4b8b,
     0x28c1_fcb3, 0xc4b3_8f9d, 0x83e2_f5d7, 0x7d24_b98b,
     0x2107_8b22, 0xb193_e7a3, 0xb2f4_9389, 0x6cde_6026]

  const MIDDLE10: MachineState :=
    [0x8a07_ff15, 0x0cad_c51c, 0x017c_8da9, 0x4afb_e5df,
     0x9137_68fe, 0x442a_0c0c, 0x598f_e3bb, 0x47d1_8828,
     0x0a39_aedc, 0xc142_8029, 0x7b48_135f, 0x5a5f_1098,
     0x2d4c_fe3e, 0xe546_6d1b, 0xe4cc_dc13, 0x8ac9_2a18]

  const STATE10: MachineState :=
    [0x8377_78ab, 0xe238_d763, 0xa67a_e21e, 0x5950_bb2f,
     0xc4f2_d0c7, 0xfc62_bb2f, 0x8fa0_18fc, 0x3f5e_c7b7,
     0x3352_71c2, 0xf294_89f3, 0xeabd_a8fc, 0x82e4_6ebd,
     0xd19c_12b4, 0xb04e_16de, 0x9e83_d0cb, 0x4e3c_50a2]

  lemma Columns1()
    ensures Columns(ToState(STATE0), 4) == ToState(MIDDLE1)
  {
    hide QuarterRound;
    hide ToState;
    hide Word;
    var w1 := QuarterRoundOf(STATE0, 0, 4, 8, 12, 0x6170_7865, 0x0302_0100, 0x1312_1110, 0x0000_0001,
                             0x6472_7965, 0x7964_6472, 0x8c76_7582, 0x4748_28f7, 0xabba_a25c, 0xdec6_2ed2, 0x6b3c_a454, 0x3a46_5196);
    var w2 := QuarterRoundOf(w1, 1, 5, 9, 13, 0x3320_646e, 0x0706_0504, 0x1716_1514, 0x0900_0000,
                             0x3a26_6972, 0x6972_3326, 0x8088_483a, 0xe4d3_e878, 0x1efa_51ea, 0x8862_cc77, 0x08eb_14b1, 0x1c7e_64f6);
    var w3 := QuarterRoundOf(w2, 2, 6, 10, 14, 0x7962_2d32, 0x0b0a_0908, 0x1b1a_1918, 0x4a00_0000,
                             0x846c_363a, 0x363a_ce6c, 0x5154_e784, 0xeee8_c5a5, 0x7354_fbdf, 0x6e35_b345, 0xbf8a_9ac9, 0xb12f_b628);
    var w4 := QuarterRoundOf(w3, 3, 7, 11, 15, 0x6b20_6574, 0x0f0e_0d0c, 0x1f1e_1d1c, 0x0000_0000,
                             0x7a2e_7280, 0x7280_7a2e, 0x919e_974a, 0x09a4_69e9, 0x83d2_dc69, 0x52a6_47f1, 0xe444_df3b, 0xf05b_6976);
    assert w4 == MIDDLE1;
  }

  lemma Diagonals1()
    ensures Diagonals(ToState(MIDDLE1), 4) == ToState(STATE1)
  {
    hide QuarterRound;
    hide ToState;
    hide Word;
    var w1 := QuarterRoundOf(MIDDLE1, 0, 5, 10, 15, 0xabba_a25c, 0x1c7e_64f6, 0xbf8a_9ac9, 0x52a6_47f1,
                             0xc839_0752, 0x40a3_9a9f, 0x002e_3568, 0x0519_e1c5, 0xcd52_e917, 0xf173_888d, 0xf1a1_bdf5, 0x5c2e_187a);
    var w2 := QuarterRoundOf(w1, 1, 6, 11, 12, 0x1efa_51ea, 0xb12f_b628, 0xe444_df3b, 0xdec6_2ed2,
                             0xd02a_0812, 0x26c0_0eec, 0x0b04_ee27, 0xb580_fba2, 0x85ab_03b4, 0x6b0d_58a3, 0x7612_46ca, 0xc95e_b461);
    var w3 := QuarterRoundOf(w2, 2, 7, 8, 13, 0x7354_fbdf, 0xf05b_6976, 0x6b3c_a454, 0x8862_cc77,
                             0x63b0_6555, 0xa922_ebd2, 0x145f_9026, 0x4f95_0e40, 0xb345_7395, 0x6798_471a, 0x7bf7_d740, 0x316c_801a);
    var w4 := QuarterRoundOf(w3, 3, 4, 9, 14, 0x83d2_dc69, 0x3a46_5196, 0x08eb_14b1, 0x6e35_b345,
                             0xbe19_2dff, 0x9eba_d02c, 0xa7a5_e4dd, 0x3b54_b9de, 0xf96d_e7dd, 0xd737_f167, 0x7edd_d644, 0xc4b7_cd22);
    assert w4 == STATE1;
  }

  lemma Columns2()
    ensures Columns(ToState(STATE1), 4) == ToState(MIDDLE2)
  {
    hide QuarterRound;
    hide ToState;
    hide Word;
    var w1 := QuarterRoundOf(STATE1, 0, 4, 8, 12, 0xcd52_e917, 0xc4b7_cd22, 0x7bf7_d740, 0x6b0d_58a3,
                             0x920a_b639, 0xee9a_f907, 0x6a92_d047, 0x51d6_5ae2, 0xe3e1_111b, 0x7be8_1c0d, 0xe67a_ec54, 0xd65b_5b5b);
    var w2 := QuarterRoundOf(w1, 1, 5, 9, 13, 0x85ab_03b4, 0x5c2e_187a, 0x7edd_d644, 0x6798_471a,
                             0xe1d9_1c2e, 0x5b34_8641, 0xda12_5c85, 0xc44f_f863, 0xa629_1491, 0x1d92_d0fd, 0xf7a5_2d82, 0xf56a_f099);
    var w3 := QuarterRoundOf(w2, 2, 6, 10, 14, 0xb345_7395, 0xc95e_b461, 0xf1a1_bdf5, 0xd737_f167,
                             0x7ca4_27f6, 0xd691_ab93, 0xc833_6988, 0xddde_9016, 0x5a82_b80c, 0x1313_9f8c, 0xdb47_0914, 0x4ccc_8103);
    var w4 := QuarterRoundOf(w3, 3, 7, 11, 15, 0xf96d_e7dd, 0x316c_801a, 0x7612_46ca, 0xf173_888d,
                             0x2ada_67f7, 0xef7a_dba9, 0x658d_2273, 0x1a26_954e, 0x4500_fd45, 0x7a26_ecaa, 0xdfb4_0f1d, 0xc94d_29e2);
    assert w4 == MIDDLE2;
  }

  lemma Diagonals2()
    ensures Diagonals(ToState(MIDDLE2), 4) == ToState(STATE2)
  {
    hide QuarterRound;
    hide ToState;
    hide Word;
    var w1 := QuarterRoundOf(MIDDLE2, 0, 5, 10, 15, 0xe3e1_111b, 0xf56a_f099, 0xdb47_0914, 0x7a26_ecaa,
                             0xd94c_01b4, 0xed1e_a36a, 0xc865_ac7e, 0xf5ce_73d0, 0xcf1a_7584, 0x04d6_ee22, 0xcd3c_9aa0, 0x7974_b81c);
    var w2 := QuarterRoundOf(w1, 1, 6, 11, 12, 0xa629_1491, 0x4ccc_8103, 0xdfb4_0f1d, 0x7be8_1c0d,
                             0xf2f5_9594, 0x8999_891d, 0x694d_983a, 0x1193_9258, 0x0489_27ec, 0x10ae_f18d, 0x79fc_89c7, 0x378d_cfb4);
    var w3 := QuarterRoundOf(w2, 2, 7, 8, 13, 0x5a82_b80c, 0xc94d_29e2, 0xe67a_ec54, 0x1d92_d0fd,
                             0x23cf_e1ee, 0x3113_3e5d, 0x178e_2ab1, 0x3035_3dec, 0x5405_1fda, 0x1621_8765, 0x2daf_b216, 0xcd47_fd0e);
    var w4 := QuarterRoundOf(w3, 3, 4, 9, 14, 0x4500_fd45, 0xd65b_5b5b, 0xf7a5_2d82, 0x1313_9f8c,
                             0x1b5c_58a0, 0xc72c_084f, 0xbed1_35d1, 0xa6e8_a688, 0xc244_ff28, 0x68f7_6705, 0x27c8_9cd6, 0x901d_2f40);
    assert w4 == STATE2;
  }

  lemma Columns3()
    ensures Columns(ToState(STATE2), 4) == ToState(MIDDLE3)
  {
    hide QuarterRound;
    hide ToState;
    hide Word;
    var w1 := QuarterRoundOf(STATE2, 0, 4, 8, 12, 0xcf1a_7584, 0x901d_2f40, 0x2daf_b216, 0x10ae_f18d,
                             0x5f37_a4c4, 0x5549_4f99, 0x82f9_01af, 0x42ee_f12e, 0xa226_95f2, 0x6fda_6bf7, 0xf2d3_6da6, 0x1ece_4458);
    var w2 := QuarterRoundOf(w1, 1, 5, 9, 13, 0x0489_27ec, 0x7974_b81c, 0x27c8_9cd6, 0x1621_8765,
                             0x7dfd_e008, 0x676d_6bdc, 0x8f36_08b2, 0x2b0a_ef64, 0xa908_cf6c, 0x65a4_b0ce, 0xf4da_b980, 0xe82b_726f);
    var w3 := QuarterRoundOf(w2, 2, 6, 10, 14, 0x5405_1fda, 0x378d_cfb4, 0xcd3c_9aa0, 0x68f7_6705,
                             0x8b92_ef8e, 0x888b_e365, 0x55c8_7e05, 0x5b1b_1624, 0xe6ae_05b2, 0x25e6_d76e, 0x7baf_5573, 0x5a21_ab90);
    var w4 := QuarterRoundOf(w3, 3, 7, 11, 15, 0xc244_ff28, 0xcd47_fd0e, 0x79fc_89c7, 0x04d6_ee22,
                             0x8f8c_fc36, 0x1214_8b5a, 0x8c11_1521, 0x6e82_f415, 0xfe0f_f04b, 0x1b7b_11ec, 0xa78c_270d, 0x8769_8c64);
    assert w4 == MIDDLE3;
  }

  lemma Diagonals3()
    ensures Diagonals(ToState(MIDDLE3), 4) == ToState(STATE3)
  {
    hide QuarterRound;
    hide ToState;
    hide Word;
    var w1 := QuarterRoundOf(MIDDLE3, 0, 5, 10, 15, 0xa226_95f2, 0xe82b_726f, 0x7baf_5573, 0x1b7b_11ec,
                             0x8a52_0861, 0x198d_9129, 0x953c_e69c, 0x794f_37d1, 0x03a1_4032, 0x2cd1_1b1a, 0xc20e_01b6, 0xa09b_33dd);
    var w2 := QuarterRoundOf(w1, 1, 6, 11, 12, 0xa908_cf6c, 0x5a21_ab90, 0xa78c_270d, 0x6fda_6bf7,
                             0x032a_7afc, 0x110b_6cf0, 0xb897_93fd, 0x6386_de2b, 0x66b1_5927, 0xba35_d777, 0x72cd_6b74, 0xa5da_af88);
    var w3 := QuarterRoundOf(w2, 2, 7, 8, 13, 0xe6ae_05b2, 0x8769_8c64, 0xf2d3_6da6, 0x65a4_b0ce,
                             0x6e17_9216, 0x22d8_0bb3, 0x15ab_7959, 0x2f53_d92c, 0x9d6b_6b42, 0xb360_f1bf, 0xc90c_6b18, 0x2fd9_1a73);
    var w4 := QuarterRoundOf(w3, 3, 4, 9, 14, 0xfe0f_f04b, 0x1ece_4458, 0xf4da_b980, 0x25e6_d76e,
                             0x1cde_34a3, 0xe3cd_3938, 0xd8a7_f2b8, 0x9b6e_0c66, 0xb84c_4109, 0x8178_315b, 0x5a20_2413, 0xa714_3ae0);
    assert w4 == STATE3;
  }

  lemma Columns4()
    ensures Columns(ToState(STATE3), 4) == ToState(MIDDLE4)
  {
    hide QuarterRound;
    hide ToState;
    hide Word;
    var w1 := QuarterRoundOf(STATE3, 0, 4, 8, 12, 0x03a1_4032, 0xa714_3ae0, 0xc90c_6b18, 0xba35_d777,
                             0xaab5_7b12, 0xac65_1080, 0x7571_7b98, 0x5417_8d26, 0xfecd_0838, 0xa818_b852, 0x1d8a_33ea, 0xcedf_6624);
    var w2 := QuarterRoundOf(w1, 1, 5, 9, 13, 0x66b1_5927, 0xa09b_33dd, 0x5a20_2413, 0xb360_f1bf,
                             0x074c_8d04, 0x7cbb_b42c, 0xd6db_d83f, 0x0ebe_2764, 0x160a_b468, 0xb100_446a, 0x87dc_1ca9, 0xb11d_e6c4);
    var w3 := QuarterRoundOf(w2, 2, 6, 10, 14, 0x9d6b_6b42, 0xa5da_af88, 0xc20e_01b6, 0x8178_315b,
                             0x4346_1aca, 0x2b91_c23e, 0xed9f_c3f4, 0x56c7_c484, 0x9a0d_df4e, 0x9c1d_70b1, 0x89bd_34a5, 0xbd78_10ef);
    var w4 := QuarterRoundOf(w3, 3, 7, 11, 15, 0xb84c_4109, 0x2fd9_1a73, 0x72cd_6b74, 0x2cd1_1b1a,
                             0xe825_5b7c, 0x4066_c4f4, 0xb334_3068, 0xd2a1_b9ce, 0xbac7_154a, 0xa1d1_befa, 0x5505_ef62, 0xd22b_5643);
    assert w4 == MIDDLE4;
  }

  lemma Diagonals4()
    ensures Diagonals(ToState(MIDDLE4), 4) == ToState(STATE4)
  {
    hide QuarterRound;
    hide ToState;
    hide Word;
    var w1 := QuarterRoundOf(MIDDLE4, 0, 5, 10, 15, 0xfecd_0838, 0xb11d_e6c4, 0x89bd_34a5, 0xa1d1_befa,
                             0xafea_eefc, 0x5006_0e3b, 0xd9c3_42e0, 0xea42_468d, 0x9a2d_3589, 0x2b3b_b2ca, 0x04fe_f5aa, 0x5e59_93f7);
    var w2 := QuarterRoundOf(w1, 1, 6, 11, 12, 0x160a_b468, 0xbd78_10ef, 0x5505_ef62, 0xa818_b852,
                             0xd382_c557, 0x7d05_7b9a, 0xd20b_6afc, 0x37a1_36f7, 0x0b23_fc4e, 0x2687_d476, 0xf893_3f72, 0x9904_c2e7);
    var w3 := QuarterRoundOf(w2, 2, 7, 8, 13, 0x9a0d_df4e, 0xd22b_5643, 0x1d8a_33ea, 0xb100_446a,
                             0x6c39_3591, 0x71fb_dd39, 0x8f86_1123, 0xd476_05da, 0x40af_3b6b, 0x54e6_5231, 0xe46c_6354, 0x0d33_4718);
    var w4 := QuarterRoundOf(w3, 3, 4, 9, 14, 0xbac7_154a, 0xcedf_6624, 0x87dc_1ca9, 0x9c1d_70b1,
                             0x89a6_7b6e, 0x0bdf_15bb, 0x93bb_3264, 0x4544_05d6, 0xceea_8144, 0x3594_ffc5, 0xc950_3229, 0x0a1b_ffc6);
    assert w4 == STATE4;
  }

  lemma Columns5()
    ensures Columns(ToState(STATE4), 4) == ToState(MIDDLE5)
  {
    hide QuarterRound;
    hide ToState;
    hide Word;
    var w1 := QuarterRoundOf(STATE4, 0, 4, 8, 12, 0x9a2d_3589, 0x0a1b_ffc6, 0xe46c_6354, 0x2687_d476,
                             0xa449_354f, 0xe139_82ce, 0xc5a5_e622, 0xe19e_4cfb, 0x85e7_824a, 0xde00_8464, 0xa3a6_6a86, 0x1c13_3ea1);
    var w2 := QuarterRoundOf(w1, 1, 5, 9, 13, 0x0b23_fc4e, 0x5e59_93f7, 0xc950_3229, 0x54e6_5231,
                             0x697d_9045, 0xc274_3d9b, 0x8bc4_6fc4, 0xdfc3_3d59, 0x4940_cd9e, 0x34f0_058b, 0xc0b4_754f, 0xbba4_0b0f);
    var w3 := QuarterRoundOf(w2, 2, 6, 10, 14, 0x40af_3b6b, 0x9904_c2e7, 0x04fe_f5aa, 0x3594_ffc5,
                             0xd9b3_fe52, 0x0197_ec27, 0x0696_e1d1, 0x2233_69f9, 0xfbe7_684b, 0x7084_6cfa, 0x771b_4ecb, 0x9413_992a);
    var w4 := QuarterRoundOf(w3, 3, 7, 11, 15, 0xceea_8144, 0x0d33_4718, 0xf893_3f72, 0x2b3b_b2ca,
                             0xdc1d_c85c, 0x7a96_f726, 0x732a_3698, 0x9718_07e1, 0x7335_d03d, 0xa327_1b09, 0x1651_51a1, 0xa4ab_2040);
    assert w4 == MIDDLE5;
  }

  lemma Diagonals5()
    ensures Diagonals(ToState(MIDDLE5), 4) == ToState(STATE5)
  {
    hide QuarterRound;
    hide ToState;
    hide Word;
    var w1 := QuarterRoundOf(MIDDLE5, 0, 5, 10, 15, 0x85e7_824a, 0xbba4_0b0f, 0x771b_4ecb, 0xa327_1b09,
                             0x418b_8d59, 0x9650_e2ac, 0x0d6c_3177, 0x83a7_8b6c, 0xc533_18c5, 0x63fa_6953, 0x7166_9aca, 0x6088_d379);
    var w2 := QuarterRoundOf(w1, 1, 6, 11, 12, 0x4940_cd9e, 0x9413_992a, 0x1651_51a1, 0xde00_8464,
                             0xdd54_66c8, 0xe2ac_0354, 0xf8fd_54f5, 0xecdd_f6ce, 0xca32_5d96, 0x9e5e_c228, 0x975c_171d, 0xc0f0_e9bd);
    var w3 := QuarterRoundOf(w2, 2, 7, 8, 13, 0xfbe7_684b, 0xa4ab_2040, 0xa3a6_6a86, 0x34f0_058b,
                             0xa092_888b, 0x8d00_9462, 0x30a6_fee8, 0xddea_8940, 0x7e7d_11cb, 0x7d85_a9f3, 0xae2c_a8db, 0xe310_cdb9);
    var w4 := QuarterRoundOf(w3, 3, 4, 9, 14, 0x7335_d03d, 0x1c13_3ea1, 0xc0b4_754f, 0x7084_6cfa,
                             0x8f49_0ede, 0x6224_ffcd, 0x22d9_751c, 0xa4bb_d3ec, 0x3404_e2ca, 0x201d_0756, 0x42f6_7c72, 0x26d7_cf73);
    assert w4 == STATE5;
  }

  lemma Columns6()
    ensures Columns(ToState(STATE5), 4) == ToState(MIDDLE6)
  {
    hide QuarterRound;
    hide ToState;
    hide Word;
    var w1 := QuarterRoundOf(STATE5, 0, 4, 8, 12, 0xc533_18c5, 0x26d7_cf73, 0xae2c_a8db, 0x9e5e_c228,
                             0xec0a_e838, 0x2a10_7254, 0xd83d_1b2f, 0xad45_cfee, 0x9950_b826, 0x40ca_72b3, 0x1907_8de2, 0x2121_065a);
    var w2 := QuarterRoundOf(w1, 1, 5, 9, 13, 0xca32_5d96, 0x6088_d379, 0x42f6_7c72, 0x7d85_a9f3,
                             0x2abb_310f, 0x98fc_573e, 0xdbf2_d3b0, 0xa00c_9bb7, 0xcac7_ccc6, 0x3b9b_f852, 0x178e_cc02, 0xc12b_dadb);
    var w3 := QuarterRoundOf(w2, 2, 6, 10, 14, 0x7e7d_11cb, 0xc0f0_e9bd, 0x7166_9aca, 0x201d_0756,
                             0x3f6d_fb88, 0xfcde_1f70, 0x6e44_ba3a, 0x4538_7aeb, 0x84a6_7673, 0x7869_0378, 0xe6ad_bdb2, 0xcae3_acd1);
    var w4 := QuarterRoundOf(w3, 3, 7, 11, 15, 0x3404_e2ca, 0xe310_cdb9, 0x975c_171d, 0x63fa_6953,
                             0x1715_b083, 0xd9d0_74ef, 0x712c_8c0c, 0xc41b_5923, 0xdb31_09a6, 0xe17d_4902, 0x52a9_d50e, 0x5946_16cb);
    assert w4 == MIDDLE6;
  }

  lemma Diagonals6()
    ensures Diagonals(ToState(MIDDLE6), 4) == ToState(STATE6)
  {
    hide QuarterRound;
    hide ToState;
    hide Word;
    var w1 := QuarterRoundOf(MIDDLE6, 0, 5, 10, 15, 0x9950_b826, 0xc12b_dadb, 0xe6ad_bdb2, 0xe17d_4902,
                             0x5a7c_9301, 0xda03_bb01, 0xc0b1_78b3, 0xaa26_8019, 0x04a3_131a, 0xa0a8_1bde, 0x6159_9491, 0xbf8a_4465);
    var w2 := QuarterRoundOf(w1, 1, 6, 11, 12, 0xcac7_ccc6, 0xcae3_acd1, 0x52a9_d50e, 0x40ca_72b3,
                             0x95ab_7997, 0x0b24_d561, 0x5dce_aa6f, 0xd06b_e972, 0x6617_6309, 0x33b6_686d, 0x9185_12dc, 0xf77d_d720);
    var w3 := QuarterRoundOf(w2, 2, 7, 8, 13, 0x84a6_7673, 0x5946_16cb, 0x1907_8de2, 0x3b9b_f852,
                             0xddec_8d3e, 0x756c_e677, 0x8e74_7459, 0x2629_2d73, 0x0415_bab1, 0x795c_c671, 0x07d1_3aca, 0xfc0b_dc90);
    var w4 := QuarterRoundOf(w3, 3, 4, 9, 14, 0xdb31_09a6, 0x2121_065a, 0x178e_cc02, 0x7869_0378,
                             0xfc52_1000, 0x1378_843b, 0x2b07_503d, 0x6566_70a2, 0x61b8_80a2, 0xc004_9972, 0xeb0b_e9af, 0x36cc_86c7);
    assert w4 == STATE6;
  }

  lemma Columns7()
    ensures Columns(ToState(STATE6), 4) == ToState(MIDDLE7)
  {
    hide QuarterRound;
    hide ToState;
    hide Word;
    var w1 := QuarterRoundOf(STATE6, 0, 4, 8, 12, 0x04a3_131a, 0x36cc_86c7, 0x07d1_3aca, 0x33b6_686d,
                             0x3b6f_99e1, 0xf18c_08d9, 0xf95d_43a3, 0x1c56_4cf9, 0x57c5_e6da, 0x49ee_03a6, 0x434b_4749, 0x8e85_d82f);
    var w2 := QuarterRoundOf(w1, 1, 5, 9, 13, 0x6617_6309, 0xbf8a_4465, 0xeb0b_e9af, 0x795c_c671,
                             0x25a1_a76e, 0x611f_5cfd, 0x4c2b_46ac, 0x102c_9f3a, 0x35ce_46a8, 0xd11a_5554, 0x1d45_9c00, 0xb481_9d06);
    var w3 := QuarterRoundOf(w2, 2, 6, 10, 14, 0x0415_bab1, 0xf77d_d720, 0x6159_9491, 0xc004_9972,
                             0xfb93_91d1, 0x08a3_3b97, 0x69fc_d028, 0x1070_89e8, 0x0c04_1bb9, 0xa720_2e04, 0x111c_fe2c, 0xb63b_e200);
    var w4 := QuarterRoundOf(w3, 3, 7, 11, 15, 0x61b8_80a2, 0xfc0b_dc90, 0x9185_12dc, 0xa0a8_1bde,
                             0x5dc4_5d32, 0x46ec_fd6c, 0xd872_1048, 0x9ccd_8247, 0xfa91_df79, 0x7d22_15bc, 0x5594_2604, 0xacd2_21e4);
    assert w4 == MIDDLE7;
  }

  lemma Diagonals7()
    ensures Diagonals(ToState(MIDDLE7), 4) == ToState(STATE7)
  {
    hide QuarterRound;
    hide ToState;
    hide Word;
    var w1 := QuarterRoundOf(MIDDLE7, 0, 5, 10, 15, 0x57c5_e6da, 0xb481_9d06, 0x111c_fe2c, 0x7d22_15bc,
                             0x0c47_83e0, 0x965c_7165, 0xa779_6f91, 0x8f29_713f, 0x9b70_f51f, 0x2c84_7a0d, 0xd3fd_e99e, 0x6a4c_50ae);
    var w2 := QuarterRoundOf(w1, 1, 6, 11, 12, 0x35ce_46a8, 0xb63b_e200, 0x5594_2604, 0x49ee_03a6,
                             0xec0a_28a8, 0x2b0e_a5e4, 0x80a2_cbe8, 0x929e_8369, 0x7ea8_ac11, 0xa609_f555, 0x26ac_c13d, 0x1921_2a5a);
    var w3 := QuarterRoundOf(w2, 2, 7, 8, 13, 0x0c04_1bb9, 0xacd2_21e4, 0x434b_4749, 0xd11a_5554,
                             0xb8d6_3d9d, 0x68c9_69cc, 0xac14_b115, 0x690f_100c, 0x21e5_4da9, 0x2c24_6549, 0xd839_165e, 0x9b03_2958);
    var w4 := QuarterRoundOf(w3, 3, 4, 9, 14, 0xfa91_df79, 0x8e85_d82f, 0x1d45_9c00, 0xa720_2e04,
                             0x8917_b7a8, 0x99ac_2e37, 0xb6f1_ca37, 0x4121_8387, 0xca39_3b2f, 0x9515_1853, 0x4c06_e28a, 0x93b0_8686);
    assert w4 == STATE7;
  }

  lemma Columns8()
    ensures Columns(ToState(STATE7), 4) == ToState(MIDDLE8)
  {
    hide QuarterRound;
    hide ToState;
    hide Word;
    var w1 := QuarterRoundOf(STATE7, 0, 4, 8, 12, 0x9b70_f51f, 0x93b0_8686, 0xd839_165e, 0xa609_f555,
                             0x2f21_7ba5, 0x8ef0_8928, 0x6729_9f86, 0x9190_0f49, 0xc0b1_8aee, 0x4103_c64e, 0xa82d_65d4, 0xdeb5_4e9c);
    var w2 := QuarterRoundOf(w1, 1, 5, 9, 13, 0x7ea8_ac11, 0x6a4c_50ae, 0x4c06_e28a, 0x2c24_6549,
                             0xe8f4_fcbf, 0x99f6_c4d0, 0xe5fd_a75a, 0x1f7f_48fb, 0x0874_45ba, 0x8281_6a91, 0x687f_11eb, 0x802c_883b);
    var w3 := QuarterRoundOf(w2, 2, 6, 10, 14, 0x21e5_4da9, 0x1921_2a5a, 0xd3fd_e99e, 0x9515_1853,
                             0x3b06_7803, 0x6050_ae13, 0x344e_97b1, 0xfbde_b2d6, 0x36e5_2ad9, 0xb584_ca56, 0xe9d3_6207, 0x06e8_6889);
    var w4 := QuarterRoundOf(w3, 3, 7, 11, 15, 0xca39_3b2f, 0x9b03_2958, 0x26ac_c13d, 0x2c84_7a0d,
                             0x653c_6487, 0x1e8a_49b8, 0x4537_0af5, 0x423a_dde3, 0xa777_426a, 0xfd0b_d2b9, 0x4242_ddae, 0x3c00_2680);
    assert w4 == MIDDLE8;
  }

  lemma Diagonals8()
    ensures Diagonals(ToState(MIDDLE8), 4) == ToState(STATE8)
  {
    hide QuarterRound;
    hide ToState;
    hide Word;
    var w1 := QuarterRoundOf(MIDDLE8, 0, 5, 10, 15, 0xc0b1_8aee, 0x802c_883b, 0xe9d3_6207, 0xfd0b_d2b9,
                             0x40de_1329, 0xc190_bdd5, 0xab64_1fdc, 0x897e_72b4, 0xca5c_85dd, 0xcc38_080b, 0x779c_27e7, 0x712a_a9ff);
    var w2 := QuarterRoundOf(w1, 1, 6, 11, 12, 0x0874_45ba, 0x06e8_6889, 0x4242_ddae, 0x4103_c64e,
                             0x0f5c_ae43, 0x680d_4e5f, 0xaa50_2c0d, 0x8448_4acb, 0x93a4_f90e, 0xa9b7_51fb, 0x5407_7e08, 0x279a_61e8);
    var w3 := QuarterRoundOf(w2, 2, 7, 8, 13, 0x36e5_2ad9, 0x3c00_2680, 0xa82d_65d4, 0x8281_6a91,
                             0x72e5_5159, 0x3bc8_f064, 0xe3f6_5638, 0x670b_8dff, 0xd9f0_df58, 0x382f_3ce2, 0x1c25_931a, 0x970f_72bd);
    var w4 := QuarterRoundOf(w3, 3, 4, 9, 14, 0xa777_426a, 0xdeb5_4e9c, 0x687f_11eb, 0xb584_ca56,
                             0x862c_9106, 0x5b50_33a8, 0xc3cf_4593, 0xa0b0_f1d7, 0x26dd_82dd, 0x8db1_757d, 0x5180_bb10, 0x9825_63f8);
    assert w4 == STATE8;
  }

  lemma Columns9()
    ensures Columns(ToState(STATE8), 4) == ToState(MIDDLE9)
  {
    hide QuarterRound;
    hide ToState;
    hide Word;
    var w1 := QuarterRoundOf(STATE8, 0, 4, 8, 12, 0xca5c_85dd, 0x9825_63f8, 0x1c25_931a, 0xa9b7_51fb,
                             0x6281_e9d5, 0xb82e_cb36, 0xd454_5e50, 0x13da_84c7, 0x765c_6e9c, 0x72a5_aace, 0x46fa_091e, 0x9046_ecaa);
    var w2 := QuarterRoundOf(w1, 1, 5, 9, 13, 0x93a4_f90e, 0x712a_a9ff, 0x5180_bb10, 0x382f_3ce2,
                             0x04cf_a30d, 0x9fef_3ce0, 0xf16f_f7f0, 0x55e0_f804, 0x5ab0_9b11, 0x5fa7_f1c5, 0x5117_e9b5, 0x7b88_d882);
    var w3 := QuarterRoundOf(w2, 2, 6, 10, 14, 0xd9f0_df58, 0x279a_61e8, 0x779c_27e7, 0x8db1_757d,
                             0x018b_4140, 0x343d_8c3a, 0xabd9_b421, 0x3d5c_98c4, 0x3ee7_da04, 0xda56_3e0a, 0x862f_f22b, 0xb9b5_77dd);
    var w4 := QuarterRoundOf(w3, 3, 7, 11, 15, 0x26dd_82dd, 0x970f_72bd, 0x5407_7e08, 0xcc38_080b,
                             0xbdec_f59a, 0xfd91_71d4, 0x5198_efdc, 0x79d6_1c69, 0x37c3_1203, 0x5263_d7ca, 0xa3fc_c7a6, 0x156d_e7ed);
    assert w4 == MIDDLE9;
  }

  lemma Diagonals9()
    ensures Diagonals(ToState(MIDDLE9), 4) == ToState(STATE9)
  {
    hide QuarterRound;
    hide ToState;
    hide Word;
    var w1 := QuarterRoundOf(MIDDLE9, 0, 5, 10, 15, 0x765c_6e9c, 0x7b88_d882, 0x862f_f22b, 0x5263_d7ca,
                             0xf1e5_471e, 0x90d4_a386, 0x1704_95b1, 0xc4d3_36c8, 0xb6b8_7de6, 0x6cde_6026, 0x83e2_f5d7, 0x98e1_8fa3);
    var w2 := QuarterRoundOf(w1, 1, 6, 11, 12, 0x5ab0_9b11, 0xb9b5_77dd, 0xa3fc_c7a6, 0x72a5_aace,
                             0x1466_12ee, 0xb820_66c3, 0x5c1d_2e69, 0x859b_4e5a, 0x9a01_6148, 0x2107_8b22, 0x7d24_b98b, 0x5ffb_e8fc);
    var w3 := QuarterRoundOf(w2, 2, 7, 8, 13, 0x3ee7_da04, 0x156d_e7ed, 0x46fa_091e, 0x5fa7_f1c5,
                             0x5455_c1f1, 0x3034_0bf2, 0x772e_1510, 0x3f2f_d624, 0x9385_9815, 0xb193_e7a3, 0x28c1_fcb3, 0xf715_4b8b);
    var w4 := QuarterRoundOf(w3, 3, 4, 9, 14, 0x37c3_1203, 0x9046_ecaa, 0x5117_e9b5, 0xda56_3e0a,
                             0xc809_fead, 0xc0a7_125f, 0x11be_fc14, 0x810b_e81f, 0x4915_e6cc, 0xb2f4_9389, 0xc4b3_8f9d, 0xdc33_c122);
    assert w4 == STATE9;
  }

  lemma Columns10()
    ensures Columns(ToState(STATE9), 4) == ToState(MIDDLE10)
  {
    hide QuarterRound;
    hide ToState;
    hide Word;
    var w1 := QuarterRoundOf(STATE9, 0, 4, 8, 12, 0xb6b8_7de6, 0xdc33_c122, 0x28c1_fcb3, 0x2107_8b22,
                             0x92ec_3f08, 0xb42a_b3eb, 0xdcec_b09e, 0xf71b_c00d, 0x8a07_ff15, 0x2d4c_fe3e, 0x0a39_aedc, 0x9137_68fe);
    var w2 := QuarterRoundOf(w1, 1, 5, 9, 13, 0x9a01_6148, 0x98e1_8fa3, 0xc4b3_8f9d, 0xb193_e7a3,
                             0x32e2_f0eb, 0x1748_8371, 0xdbfc_130e, 0xd9ca_d431, 0x0cad_c51c, 0xe546_6d1b, 0xc142_8029, 0x442a_0c0c);
    var w3 := QuarterRoundOf(w2, 2, 6, 10, 14, 0x9385_9815, 0x5ffb_e8fc, 0x83e2_f5d7, 0xb2f4_9389,
                             0xf381_8111, 0x1298_4175, 0x967b_374c, 0x0dfb_0c98, 0x017c_8da9, 0xe4cc_dc13, 0x7b48_135f, 0x598f_e3bb);
    var w4 := QuarterRoundOf(w3, 3, 7, 11, 15, 0x4915_e6cc, 0xf715_4b8b, 0x7d24_b98b, 0x6cde_6026,
                             0x402b_3257, 0x5271_2cf5, 0xcf95_e680, 0x0ad0_b388, 0x4afb_e5df, 0x8ac9_2a18, 0x5a5f_1098, 0x47d1_8828);
    assert w4 == MIDDLE10;
  }

  lemma Diagonals10()
    ensures Diagonals(ToState(MIDDLE10), 4) == ToState(STATE10)
  {
    hide QuarterRound;
    hide ToState;
    hide Word;
    var w1 := QuarterRoundOf(MIDDLE10, 0, 5, 10, 15, 0x8a07_ff15, 0x442a_0c0c, 0x7b48_135f, 0x8ac9_2a18,
                             0xce32_0b21, 0x2139_44fb, 0x9c81_585a, 0xb545_6d8a, 0x8377_78ab, 0x4e3c_50a2, 0xeabd_a8fc, 0xfc62_bb2f);
    var w2 := QuarterRoundOf(w1, 1, 6, 11, 12, 0x0cad_c51c, 0x598f_e3bb, 0x5a5f_1098, 0x2d4c_fe3e,
                             0x663d_a8d7, 0x56e9_4b71, 0xb148_5c09, 0x7bfb_2e8c, 0xe238_d763, 0xd19c_12b4, 0x82e4_6ebd, 0x8fa0_18fc);
    var w3 := QuarterRoundOf(w2, 2, 7, 8, 13, 0x017c_8da9, 0x47d1_8828, 0x0a39_aedc, 0xe546_6d1b,
                             0x494e_15d1, 0x78ca_ac08, 0x8304_5ae4, 0x5d2c_cc4d, 0xa67a_e21e, 0xb04e_16de, 0x3352_71c2, 0x3f5e_c7b7);
    var w4 := QuarterRoundOf(w3, 3, 4, 9, 14, 0x4afb_e5df, 0x9137_68fe, 0xc142_8029, 0xe4cc_dc13,
                             0xdc33_4edd, 0x92ce_38ff, 0x5410_b928, 0x7d1d_6c52, 0x5950_bb2f, 0x9e83_d0cb, 0xf294_89f3, 0xc4f2_d0c7);
    assert w4 == STATE10;
  }

  lemma StartWords0()
    ensures Word(0x6170_7865) == 0x6170_7865 && Word(0x3320_646e) == 0x3320_646e
    ensures Word(0x7962_2d32) == 0x7962_2d32 && Word(0x6b20_6574) == 0x6b20_6574
  {
    hide Word;
    WordByDigits(0x6170_7865);
    WordByDigits(0x3320_646e);
    WordByDigits(0x7962_2d32);
    WordByDigits(0x6b20_6574);
  }

  lemma StartWords1()
    ensures Word(0x0302_0100) == 0x0302_0100 && Word(0x0706_0504) == 0x0706_0504
    ensures Word(0x0b0a_0908) == 0x0b0a_0908 && Word(0x0f0e_0d0c) == 0x0f0e_0d0c
  {
    hide Word;
    WordByDigits(0x0302_0100);
    WordByDigits(0x0706_0504);
    WordByDigits(0x0b0a_0908);
    WordByDigits(0x0f0e_0d0c);
  }

  lemma StartWords2()
    ensures Word(0x1312_1110) == 0x1312_1110 && Word(0x1716_1514) == 0x1716_1514
    ensures Word(0x1b1a_1918) == 0x1b1a_1918 && Word(0x1f1e_1d1c) == 0x1f1e_1d1c
  {
    hide Word;
    WordByDigits(0x1312_1110);
    WordByDigits(0x1716_1514);
    WordByDigits(0x1b1a_1918);
    WordByDigits(0x1f1e_1d1c);
  }

  lemma StartWords3()
    ensures Word(0x0000_0001) == 0x0000_0001 && Word(0x0900_0000) == 0x0900_0000
    ensures Word(0x4a00_0000) == 0x4a00_0000 && Word(0x0000_0000) == 0x0000_0000
  {
    hide Word;
    WordByDigits(0x0000_0001);
    WordByDigits(0x0900_0000);
    WordByDigits(0x4a00_0000);
    WordByDigits(0x0000_0000);
  }

  lemma StartWords()
    ensures ToState(STATE0)
            == [0x6170_7865, 0x3320_646e, 0x7962_2d32, 0x6b20_6574,
                0x0302_0100, 0x0706_0504, 0x0b0a_0908, 0x0f0e_0d0c,
                0x1312_1110, 0x1716_1514, 0x1b1a_1918, 0x1f1e_1d1c,
                0x0000_0001, 0x0900_0000, 0x4a00_0000, 0x0000_0000]
  {
    hide Word;
    StartWords0();
    StartWords1();
    StartWords2();
    StartWords3();
  }

  lemma EndWords0()
    ensures Word(0x8377_78ab) == 0x8377_78ab && Word(0xe238_d763) == 0xe238_d763
    ensures Word(0xa67a_e21e) == 0xa67a_e21e && Word(0x5950_bb2f) == 0x5950_bb2f
  {
    hide Word;
    WordByDigits(0x8377_78ab);
    WordByDigits(0xe238_d763);
    WordByDigits(0xa67a_e21e);
    WordByDigits(0x5950_bb2f);
  }

  lemma EndWords1()
    ensures Word(0xc4f2_d0c7) == 0xc4f2_d0c7 && Word(0xfc62_bb2f) == 0xfc62_bb2f
    ensures Word(0x8fa0_18fc) == 0x8fa0_18fc && Word(0x3f5e_c7b7) == 0x3f5e_c7b7
  {
    hide Word;
    WordByDigits(0xc4f2_d0c7);
    WordByDigits(0xfc62_bb2f);
    WordByDigits(0x8fa0_18fc);
    WordByDigits(0x3f5e_c7b7);
  }

  lemma EndWords2()
    ensures Word(0x3352_71c2) == 0x3352_71c2 && Word(0xf294_89f3) == 0xf294_89f3
    ensures Word(0xeabd_a8fc) == 0xeabd_a8fc && Word(0x82e4_6ebd) == 0x82e4_6ebd
  {
    hide Word;
    WordByDigits(0x3352_71c2);
    WordByDigits(0xf294_89f3);
    WordByDigits(0xeabd_a8fc);
    WordByDigits(0x82e4_6ebd);
  }

  lemma EndWords3()
    ensures Word(0xd19c_12b4) == 0xd19c_12b4 && Word(0xb04e_16de) == 0xb04e_16de
    ensures Word(0x9e83_d0cb) == 0x9e83_d0cb && Word(0x4e3c_50a2) == 0x4e3c_50a2
  {
    hide Word;
    WordByDigits(0xd19c_12b4);
    WordByDigits(0xb04e_16de);
    WordByDigits(0x9e83_d0cb);
    WordByDigits(0x4e3c_50a2);
  }

  lemma EndWords()
    ensures ToState(STATE10)
            == [0x8377_78ab, 0xe238_d763, 0xa67a_e21e, 0x5950_bb2f,
                0xc4f2_d0c7, 0xfc62_bb2f, 0x8fa0_18fc, 0x3f5e_c7b7,
                0x3352_71c2, 0xf294_89f3, 0xeabd_a8fc, 0x82e4_6ebd,
                0xd19c_12b4, 0xb04e_16de, 0x9e83_d0cb, 0x4e3c_50a2]
  {
    hide Word;
    EndWords0();
    EndWords1();
    EndWords2();
    EndWords3();
  }

  lemma StartState(key: seq<byte>, nonce: seq<byte>)
    requires |key| == 32 && (forall i :: 0 <= i < 32 ==> key[i] == i) && nonce == [0, 0, 0, 9, 0, 0, 0, 0x4a, 0, 0, 0, 0]
    ensures Rfc7539State(key, 1, nonce) == ToState(STATE0)
  {
    hide ToState;
    hide WordsOf;
    StartWords();
    forall i | 0 <= i < 4
      ensures WordsOf(SIGMA)[i] == ToState(STATE0)[i]
    {
      WordsOfIs(SIGMA, i);
    }
    forall i | 0 <= i < 8
      ensures WordsOf(key)[i] == ToState(STATE0)[4 + i]
    {
      WordsOfIs(key, i);
    }
    forall i | 0 <= i < 3
      ensures WordsOf(nonce)[i] == ToState(STATE0)[13 + i]
    {
      WordsOfIs(nonce, i);
    }
  }

  lemma TenDoubleRounds()
    ensures Rounds(ToState(STATE0), 10) == ToState(STATE10)
  {
    hide ToState;
    hide DoubleRound;
    hide Columns;
    hide Diagonals;
    Columns1();
    Diagonals1();
    DoubleRoundIs(ToState(STATE0));
    assert Rounds(ToState(STATE0), 1) == ToState(STATE1);
    Columns2();
    Diagonals2();
    DoubleRoundIs(ToState(STATE1));
    assert Rounds(ToState(STATE0), 2) == ToState(STATE2);
    Columns3();
    Diagonals3();
    DoubleRoundIs(ToState(STATE2));
    assert Rounds(ToState(STATE0), 3) == ToState(STATE3);
    Columns4();
    Diagonals4();
    DoubleRoundIs(ToState(STATE3));
    assert Rounds(ToState(STATE0), 4) == ToState(STATE4);
    Columns5();
    Diagonals5();
    DoubleRoundIs(ToState(STATE4));
    assert Rounds(ToState(STATE0), 5) == ToState(STATE5);
    Columns6();
    Diagonals6();
    DoubleRoundIs(ToState(STATE5));
    assert Rounds(ToState(STATE0), 6) == ToState(STATE6);
    Columns7();
    Diagonals7();
    DoubleRoundIs(ToState(STATE6));
    assert Rounds(ToState(STATE0), 7) == ToState(STATE7);
    Columns8();
    Diagonals8();
    DoubleRoundIs(ToState(STATE7));
    assert Rounds(ToState(STATE0), 8) == ToState(STATE8);
    Columns9();
    Diagonals9();
    DoubleRoundIs(ToState(STATE8));
    assert Rounds(ToState(STATE0), 9) == ToState(STATE9);
    Columns10();
    Diagonals10();
    DoubleRoundIs(ToState(STATE9));
    assert Rounds(ToState(STATE0), 10) == ToState(STATE10);
  }

  /** One word of the serialized block. */
  lemma WordAt(w: seq<u32>, i: nat, x: u32, b0: byte, b1: byte, b2: byte, b3: byte)
    requires i < |w| && w[i] == x == b0 as int + 0x100 * b1 as int + 0x1_0000 * b2 as int + 0x100_0000 * b3 as int
    ensures Bytes(w)[4 * i] == b0 && Bytes(w)[4 * i + 1] == b1 && Bytes(w)[4 * i + 2] == b2 && Bytes(w)[4 * i + 3] == b3
  {
    hide Bytes;
    var y, z := b1 as int + 0x100 * b2 as int + 0x1_0000 * b3 as int, b2 as int + 0x100 * b3 as int;
    BytesIs(w, i);
    QuotientUnique(x, 0x100, y, b0);
    QuotientUnique(y, 0x100, z, b1);
    QuotientUnique(z, 0x100, b3, b2);
    QuotientUnique(x, 0x1_0000, z, b0 as int + 0x100 * b1 as int);
    QuotientUnique(x, 0x100_0000, b3, b0 as int + 0x100 * b1 as int + 0x1_0000 * b2 as int);
  }

  lemma Serialized0(w: seq<u32>)
    requires |w| == 16
    requires w[0] == 0xe4e7_f110 && w[1] == 0x1559_3bd1 && w[2] == 0x1fdd_0f50 && w[3] == 0xc471_20a3
    ensures Bytes(w)[0..16]
            == [0x10, 0xf1, 0xe7, 0xe4, 0xd1, 0x3b, 0x59, 0x15, 0x50, 0x0f, 0xdd, 0x1f, 0xa3, 0x20, 0x71, 0xc4]
  {
    hide Bytes;
    WordAt(w, 0, 0xe4e7_f110, 0x10, 0xf1, 0xe7, 0xe4);
    WordAt(w, 1, 0x1559_3bd1, 0xd1, 0x3b, 0x59, 0x15);
    WordAt(w, 2, 0x1fdd_0f50, 0x50, 0x0f, 0xdd, 0x1f);
    WordAt(w, 3, 0xc471_20a3, 0xa3, 0x20, 0x71, 0xc4);
    var b := Bytes(w)[0..16];
    assert forall i :: 0 <= i < 16 ==> b[i] == Bytes(w)[0 + i];
  }

  lemma Serialized1(w: seq<u32>)
    requires |w| == 16
    requires w[4] == 0xc7f4_d1c7 && w[5] == 0x0368_c033 && w[6] == 0x9aaa_2204 && w[7] == 0x4e6c_d4c3
    ensures Bytes(w)[16..32]
            == [0xc7, 0xd1, 0xf4, 0xc7, 0x33, 0xc0, 0x68, 0x03, 0x04, 0x22, 0xaa, 0x9a, 0xc3, 0xd4, 0x6c, 0x4e]
  {
    hide Bytes;
    WordAt(w, 4, 0xc7f4_d1c7, 0xc7, 0xd1, 0xf4, 0xc7);
    WordAt(w, 5, 0x0368_c033, 0x33, 0xc0, 0x68, 0x03);
    WordAt(w, 6, 0x9aaa_2204, 0x04, 0x22, 0xaa, 0x9a);
    WordAt(w, 7, 0x4e6c_d4c3, 0xc3, 0xd4, 0x6c, 0x4e);
    var b := Bytes(w)[16..32];
    assert forall i :: 0 <= i < 16 ==> b[i] == Bytes(w)[16 + i];
  }

  lemma Serialized2(w: seq<u32>)
    requires |w| == 16
    requires w[8] == 0x4664_82d2 && w[9] == 0x09aa_9f07 && w[10] == 0x05d7_c214 && w[11] == 0xa202_8bd9
    ensures Bytes(w)[32..48]
            == [0xd2, 0x82, 0x64, 0x46, 0x07, 0x9f, 0xaa, 0x09, 0x14, 0xc2, 0xd7, 0x05, 0xd9, 0x8b, 0x02, 0xa2]
  {
    hide Bytes;
    WordAt(w, 8, 0x4664_82d2, 0xd2, 0x82, 0x64, 0x46);
    WordAt(w, 9, 0x09aa_9f07, 0x07, 0x9f, 0xaa, 0x09);
    WordAt(w, 10, 0x05d7_c214, 0x14, 0xc2, 0xd7, 0x05);
    WordAt(w, 11, 0xa202_8bd9, 0xd9, 0x8b, 0x02, 0xa2);
    var b := Bytes(w)[32..48];
    assert forall i :: 0 <= i < 16 ==> b[i] == Bytes(w)[32 + i];
  }

  lemma Serialized3(w: seq<u32>)
    requires |w| == 16
    requires w[12] == 0xd19c_12b5 && w[13] == 0xb94e_16de && w[14] == 0xe883_d0cb && w[15] == 0x4e3c_50a2
    ensures Bytes(w)[48..64]
            == [0xb5, 0x12, 0x9c, 0xd1, 0xde, 0x16, 0x4e, 0xb9, 0xcb, 0xd0, 0x83, 0xe8, 0xa2, 0x50, 0x3c, 0x4e]
  {
    hide Bytes;
    WordAt(w, 12, 0xd19c_12b5, 0xb5, 0x12, 0x9c, 0xd1);
    WordAt(w, 13, 0xb94e_16de, 0xde, 0x16, 0x4e, 0xb9);
    WordAt(w, 14, 0xe883_d0cb, 0xcb, 0xd0, 0x83, 0xe8);
    WordAt(w, 15, 0x4e3c_50a2, 0xa2, 0x50, 0x3c, 0x4e);
    var b := Bytes(w)[48..64];
    assert forall i :: 0 <= i < 16 ==> b[i] == Bytes(w)[48 + i];
  }

  /** The words after the last addition. */
  lemma AddedWords() returns (w: seq<u32>)
    ensures w == [0xe4e7_f110, 0x1559_3bd1, 0x1fdd_0f50, 0xc471_20a3,
                  0xc7f4_d1c7, 0x0368_c033, 0x9aaa_2204, 0x4e6c_d4c3,
                  0x4664_82d2, 0x09aa_9f07, 0x05d7_c214, 0xa202_8bd9,
                  0xd19c_12b5, 0xb94e_16de, 0xe883_d0cb, 0x4e3c_50a2]
    ensures Block(ToState(STATE0)) == Bytes(w)
  {
    hide ToState;
    hide Rounds;
    hide Bytes;
    StartWords();
    EndWords();
    TenDoubleRounds();
    w := [0xe4e7_f110, 0x1559_3bd1, 0x1fdd_0f50, 0xc471_20a3,
          0xc7f4_d1c7, 0x0368_c033, 0x9aaa_2204, 0x4e6c_d4c3,
          0x4664_82d2, 0x09aa_9f07, 0x05d7_c214, 0xa202_8bd9,
          0xd19c_12b5, 0xb94e_16de, 0xe883_d0cb, 0x4e3c_50a2];
    var s, x := ToState(STATE0), ToState(STATE10);
    assert w == seq(16, i requires 0 <= i < 16 => Plus(s[i], x[i]));
  }

  /** The key stream block of section 2.3.2 of RFC 7539. */
  lemma BlockVector(key: seq<byte>, nonce: seq<byte>)
    requires |key| == 32 && (forall i :: 0 <= i < 32 ==> key[i] == i) && nonce == [0, 0, 0, 9, 0, 0, 0, 0x4a, 0, 0, 0, 0]
    ensures var b := Block(Rfc7539State(key, 1, nonce));
            && b[0..16]
               == [0x10, 0xf1, 0xe7, 0xe4, 0xd1, 0x3b, 0x59, 0x15, 0x50, 0x0f, 0xdd, 0x1f, 0xa3, 0x20, 0x71, 0xc4]
            && b[16..32]
               == [0xc7, 0xd1, 0xf4, 0xc7, 0x33, 0xc0, 0x68, 0x03, 0x04, 0x22, 0xaa, 0x9a, 0xc3, 0xd4, 0x6c, 0x4e]
            && b[32..48]
               == [0xd2, 0x82, 0x64, 0x46, 0x07, 0x9f, 0xaa, 0x09, 0x14, 0xc2, 0xd7, 0x05, 0xd9, 0x8b, 0x02, 0xa2]
            && b[48..64]
               == [0xb5, 0x12, 0x9c, 0xd1, 0xde, 0x16, 0x4e, 0xb9, 0xcb, 0xd0, 0x83, 0xe8, 0xa2, 0x50, 0x3c, 0x4e]
  {
    hide ToState;
    hide Rounds;
    hide Rfc7539State;
    hide Bytes;
    hide Block;
    StartState(key, nonce);
    var w := AddedWords();
    Serialized0(w);
    Serialized1(w);
    Serialized2(w);
    Serialized3(w);
  }
}
