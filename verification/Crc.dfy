/** The 64-bit checksum of the .NET client (PDB.DotNetSDK/CRC.cs): a table with one entry for
    every byte against the shift register it abbreviates. Bit vectors, because the subject is
    their bits. */
module Crc {
  /** Entry 128 of the table: the generator polynomial, lowest degree in the highest bit. */
  const POLY: bv64 := 0x95ac_9329_ac4b_c9b5

  function Xor(a: bv64, b: bv64): bv64 { a ^ b }

  /** The register shifts out its lowest bit and takes in the polynomial when it was set. */
  function Step(c: bv64): bv64 {
    if c & 1 == 1 then (c >> 1) ^ POLY else c >> 1
  }

  function Steps(c: bv64, n: nat): bv64 {
    if n == 0 then c else Step(Steps(c, n - 1))
  }

  /** Bit-at-a-time: a byte enters the low end of the register and is shifted through. */
  function BitCrc(s: seq<bv8>): bv64 {
    if s == [] then 0 else Steps(Xor(BitCrc(s[..|s| - 1]), s[|s| - 1] as bv64), 8)
  }

  // ---------------------------------------------------------------- the register

  lemma Eight(c: bv64)
    ensures Steps(c, 8) == Step(Step(Step(Step(Step(Step(Step(Step(c))))))))
  {
    hide Step;
    assert Steps(c, 1) == Step(Steps(c, 0));
    assert Steps(c, 2) == Step(Steps(c, 1));
    assert Steps(c, 3) == Step(Steps(c, 2));
    assert Steps(c, 4) == Step(Steps(c, 3));
    assert Steps(c, 5) == Step(Steps(c, 4));
    assert Steps(c, 6) == Step(Steps(c, 5));
    assert Steps(c, 7) == Step(Steps(c, 6));
  }

  lemma XorShift(a: bv64, b: bv64)
    ensures (a ^ b) >> 1 == (a >> 1) ^ (b >> 1)
    ensures (a ^ b) & 1 == (a & 1) ^ (b & 1)
    ensures a & 1 == 0 || a & 1 == 1
  {
  }

  lemma XorMoves(a: bv64, b: bv64, p: bv64)
    ensures (a ^ b) ^ p == (a ^ p) ^ b
    ensures (a ^ b) ^ p == a ^ (b ^ p)
    ensures (a ^ p) ^ (b ^ p) == a ^ b
  {
  }

  lemma StepXor(a: bv64, b: bv64)
    ensures Step(a ^ b) == Step(a) ^ Step(b)
  {
    XorShift(a, b);
    XorShift(b, a);
    XorMoves(a >> 1, b >> 1, POLY);
    if a & 1 == 1 {
      assert Step(a) == (a >> 1) ^ POLY;
    } else {
      assert Step(a) == a >> 1;
    }
  }

  lemma StepLinear(a: bv64, b: bv64)
    ensures Step(Xor(a, b)) == Xor(Step(a), Step(b))
  {
    hide Step;
    StepXor(a, b);
  }

  /** The register is linear: the steps of a sum are the sum of the steps. */
  lemma {:induction false} StepsLinear(a: bv64, b: bv64, n: nat)
    ensures Steps(Xor(a, b), n) == Xor(Steps(a, n), Steps(b, n))
  {
    hide Step, Xor;
    if n > 0 {
      StepsLinear(a, b, n - 1);
      StepLinear(Steps(a, n - 1), Steps(b, n - 1));
    }
  }

  /** No two states lead to the same state: the highest bit tells what was shifted out. */
  lemma StepInjective(a: bv64, b: bv64)
    ensures Step(a) == Step(b) ==> a == b
  {
  }

  lemma {:induction false} StepsInjective(a: bv64, b: bv64, n: nat)
    requires a != b
    ensures Steps(a, n) != Steps(b, n)
  {
    hide Step;
    if n > 0 {
      StepsInjective(a, b, n - 1);
      StepInjective(Steps(a, n - 1), Steps(b, n - 1));
    }
  }

  // ---------------------------------------------------------------- the table

  function Row0(b: bv8): bv64 {
    match b
    case 0x00 => 0x0000_0000_0000_0000 case 0x01 => 0x7ad8_70c8_3035_8979
    case 0x02 => 0xf5b0_e190_606b_12f2 case 0x03 => 0x8f68_9158_505e_9b8b
    case 0x04 => 0xc038_e573_9841_b68f case 0x05 => 0xbae0_95bb_a874_3ff6
    case 0x06 => 0x3588_04e3_f82a_a47d case 0x07 => 0x4f50_742b_c81f_2d04
    case 0x08 => 0xab28_ecb4_6814_fe75 case 0x09 => 0xd1f0_9c7c_5821_770c
    case 0x0a => 0x5e98_0d24_087f_ec87 case 0x0b => 0x2440_7dec_384a_65fe
    case 0x0c => 0x6b10_09c7_f055_48fa case 0x0d => 0x11c8_790f_c060_c183
    case 0x0e => 0x9ea0_e857_903e_5a08 case _ => 0xe478_989f_a00b_d371
  }

  function Row1(b: bv8): bv64 {
    match b
    case 0x10 => 0x7d08_ff3b_88be_6f81 case 0x11 => 0x07d0_8ff3_b88b_e6f8
    case 0x12 => 0x88b8_1eab_e8d5_7d73 case 0x13 => 0xf260_6e63_d8e0_f40a
    case 0x14 => 0xbd30_1a48_10ff_d90e case 0x15 => 0xc7e8_6a80_20ca_5077
    case 0x16 => 0x4880_fbd8_7094_cbfc case 0x17 => 0x3258_8b10_40a1_4285
    case 0x18 => 0xd620_138f_e0aa_91f4 case 0x19 => 0xacf8_6347_d09f_188d
    case 0x1a => 0x2390_f21f_80c1_8306 case 0x1b => 0x5948_82d7_b0f4_0a7f
    case 0x1c => 0x1618_f6fc_78eb_277b case 0x1d => 0x6cc0_8634_48de_ae02
    case 0x1e => 0xe3a8_176c_1880_3589 case _ => 0x9970_67a4_28b5_bcf0
  }

  function Row2(b: bv8): bv64 {
    match b
    case 0x20 => 0xfa11_fe77_117c_df02 case 0x21 => 0x80c9_8ebf_2149_567b
    case 0x22 => 0x0fa1_1fe7_7117_cdf0 case 0x23 => 0x7579_6f2f_4122_4489
    case 0x24 => 0x3a29_1b04_893d_698d case 0x25 => 0x40f1_6bcc_b908_e0f4
    case 0x26 => 0xcf99_fa94_e956_7b7f case 0x27 => 0xb541_8a5c_d963_f206
    case 0x28 => 0x5139_12c3_7968_2177 case 0x29 => 0x2be1_620b_495d_a80e
    case 0x2a => 0xa489_f353_1903_3385 case 0x2b => 0xde51_839b_2936_bafc
    case 0x2c => 0x9101_f7b0_e129_97f8 case 0x2d => 0xebd9_8778_d11c_1e81
    case 0x2e => 0x64b1_1620_8142_850a case _ => 0x1e69_66e8_b177_0c73
  }

  function Row3(b: bv8): bv64 {
    match b
    case 0x30 => 0x8719_014c_99c2_b083 case 0x31 => 0xfdc1_7184_a9f7_39fa
    case 0x32 => 0x72a9_e0dc_f9a9_a271 case 0x33 => 0x0871_9014_c99c_2b08
    case 0x34 => 0x4721_e43f_0183_060c case 0x35 => 0x3df9_94f7_31b6_8f75
    case 0x36 => 0xb291_05af_61e8_14fe case 0x37 => 0xc849_7567_51dd_9d87
    case 0x38 => 0x2c31_edf8_f1d6_4ef6 case 0x39 => 0x56e9_9d30_c1e3_c78f
    case 0x3a => 0xd981_0c68_91bd_5c04 case 0x3b => 0xa359_7ca0_a188_d57d
    case 0x3c => 0xec09_088b_6997_f879 case 0x3d => 0x96d1_7843_59a2_7100
    case 0x3e => 0x19b9_e91b_09fc_ea8b case _ => 0x6361_99d3_39c9_63f2
  }

  function Row4(b: bv8): bv64 {
    match b
    case 0x40 => 0xdf7a_dabd_7a6e_2d6f case 0x41 => 0xa5a2_aa75_4a5b_a416
    case 0x42 => 0x2aca_3b2d_1a05_3f9d case 0x43 => 0x5012_4be5_2a30_b6e4
    case 0x44 => 0x1f42_3fce_e22f_9be0 case 0x45 => 0x659a_4f06_d21a_1299
    case 0x46 => 0xeaf2_de5e_8244_8912 case 0x47 => 0x902a_ae96_b271_006b
    case 0x48 => 0x7452_3609_127a_d31a case 0x49 => 0x0e8a_46c1_224f_5a63
    case 0x4a => 0x81e2_d799_7211_c1e8 case 0x4b => 0xfb3a_a751_4224_4891
    case 0x4c => 0xb46a_d37a_8a3b_6595 case 0x4d => 0xceb2_a3b2_ba0e_ecec
    case 0x4e => 0x41da_32ea_ea50_7767 case _ => 0x3b02_4222_da65_fe1e
  }

  function Row5(b: bv8): bv64 {
    match b
    case 0x50 => 0xa272_2586_f2d0_42ee case 0x51 => 0xd8aa_554e_c2e5_cb97
    case 0x52 => 0x57c2_c416_92bb_501c case 0x53 => 0x2d1a_b4de_a28e_d965
    case 0x54 => 0x624a_c0f5_6a91_f461 case 0x55 => 0x1892_b03d_5aa4_7d18
    case 0x56 => 0x97fa_2165_0afa_e693 case 0x57 => 0xed22_51ad_3acf_6fea
    case 0x58 => 0x095a_c932_9ac4_bc9b case 0x59 => 0x7382_b9fa_aaf1_35e2
    case 0x5a => 0xfcea_28a2_faaf_ae69 case 0x5b => 0x8632_586a_ca9a_2710
    case 0x5c => 0xc962_2c41_0285_0a14 case 0x5d => 0xb3ba_5c89_32b0_836d
    case 0x5e => 0x3cd2_cdd1_62ee_18e6 case _ => 0x460a_bd19_52db_919f
  }

  function Row6(b: bv8): bv64 {
    match b
    case 0x60 => 0x256b_24ca_6b12_f26d case 0x61 => 0x5fb3_5402_5b27_7b14
    case 0x62 => 0xd0db_c55a_0b79_e09f case 0x63 => 0xaa03_b592_3b4c_69e6
    case 0x64 => 0xe553_c1b9_f353_44e2 case 0x65 => 0x9f8b_b171_c366_cd9b
    case 0x66 => 0x10e3_2029_9338_5610 case 0x67 => 0x6a3b_50e1_a30d_df69
    case 0x68 => 0x8e43_c87e_0306_0c18 case 0x69 => 0xf49b_b8b6_3333_8561
    case 0x6a => 0x7bf3_29ee_636d_1eea case 0x6b => 0x012b_5926_5358_9793
    case 0x6c => 0x4e7b_2d0d_9b47_ba97 case 0x6d => 0x34a3_5dc5_ab72_33ee
    case 0x6e => 0xbbcb_cc9d_fb2c_a865 case _ => 0xc113_bc55_cb19_211c
  }

  function Row7(b: bv8): bv64 {
    match b
    case 0x70 => 0x5863_dbf1_e3ac_9dec case 0x71 => 0x22bb_ab39_d399_1495
    case 0x72 => 0xadd3_3a61_83c7_8f1e case 0x73 => 0xd70b_4aa9_b3f2_0667
    case 0x74 => 0x985b_3e82_7bed_2b63 case 0x75 => 0xe283_4e4a_4bd8_a21a
    case 0x76 => 0x6deb_df12_1b86_3991 case 0x77 => 0x1733_afda_2bb3_b0e8
    case 0x78 => 0xf34b_3745_8bb8_6399 case 0x79 => 0x8993_478d_bb8d_eae0
    case 0x7a => 0x06fb_d6d5_ebd3_716b case 0x7b => 0x7c23_a61d_dbe6_f812
    case 0x7c => 0x3373_d236_13f9_d516 case 0x7d => 0x49ab_a2fe_23cc_5c6f
    case 0x7e => 0xc6c3_33a6_7392_c7e4 case _ => 0xbc1b_436e_43a7_4e9d
  }

  function Row8(b: bv8): bv64 {
    match b
    case 0x80 => 0x95ac_9329_ac4b_c9b5 case 0x81 => 0xef74_e3e1_9c7e_40cc
    case 0x82 => 0x601c_72b9_cc20_db47 case 0x83 => 0x1ac4_0271_fc15_523e
    case 0x84 => 0x5594_765a_340a_7f3a case 0x85 => 0x2f4c_0692_043f_f643
    case 0x86 => 0xa024_97ca_5461_6dc8 case 0x87 => 0xdafc_e702_6454_e4b1
    case 0x88 => 0x3e84_7f9d_c45f_37c0 case 0x89 => 0x445c_0f55_f46a_beb9
    case 0x8a => 0xcb34_9e0d_a434_2532 case 0x8b => 0xb1ec_eec5_9401_ac4b
    case 0x8c => 0xfebc_9aee_5c1e_814f case 0x8d => 0x8464_ea26_6c2b_0836
    case 0x8e => 0x0b0c_7b7e_3c75_93bd case _ => 0x71d4_0bb6_0c40_1ac4
  }

  function Row9(b: bv8): bv64 {
    match b
    case 0x90 => 0xe8a4_6c12_24f5_a634 case 0x91 => 0x927c_1cda_14c0_2f4d
    case 0x92 => 0x1d14_8d82_449e_b4c6 case 0x93 => 0x67cc_fd4a_74ab_3dbf
    case 0x94 => 0x289c_8961_bcb4_10bb case 0x95 => 0x5244_f9a9_8c81_99c2
    case 0x96 => 0xdd2c_68f1_dcdf_0249 case 0x97 => 0xa7f4_1839_ecea_8b30
    case 0x98 => 0x438c_80a6_4ce1_5841 case 0x99 => 0x3954_f06e_7cd4_d138
    case 0x9a => 0xb63c_6136_2c8a_4ab3 case 0x9b => 0xcce4_11fe_1cbf_c3ca
    case 0x9c => 0x83b4_65d5_d4a0_eece case 0x9d => 0xf96c_151d_e495_67b7
    case 0x9e => 0x7604_8445_b4cb_fc3c case _ => 0x0cdc_f48d_84fe_7545
  }

  function RowA(b: bv8): bv64 {
    match b
    case 0xa0 => 0x6fbd_6d5e_bd37_16b7 case 0xa1 => 0x1565_1d96_8d02_9fce
    case 0xa2 => 0x9a0d_8cce_dd5c_0445 case 0xa3 => 0xe0d5_fc06_ed69_8d3c
    case 0xa4 => 0xaf85_882d_2576_a038 case 0xa5 => 0xd55d_f8e5_1543_2941
    case 0xa6 => 0x5a35_69bd_451d_b2ca case 0xa7 => 0x20ed_1975_7528_3bb3
    case 0xa8 => 0xc495_81ea_d523_e8c2 case 0xa9 => 0xbe4d_f122_e516_61bb
    case 0xaa => 0x3125_607a_b548_fa30 case 0xab => 0x4bfd_10b2_857d_7349
    case 0xac => 0x04ad_6499_4d62_5e4d case 0xad => 0x7e75_1451_7d57_d734
    case 0xae => 0xf11d_8509_2d09_4cbf case _ => 0x8bc5_f5c1_1d3c_c5c6
  }

  function RowB(b: bv8): bv64 {
    match b
    case 0xb0 => 0x12b5_9265_3589_7936 case 0xb1 => 0x686d_e2ad_05bc_f04f
    case 0xb2 => 0xe705_73f5_55e2_6bc4 case 0xb3 => 0x9ddd_033d_65d7_e2bd
    case 0xb4 => 0xd28d_7716_adc8_cfb9 case 0xb5 => 0xa855_07de_9dfd_46c0
    case 0xb6 => 0x273d_9686_cda3_dd4b case 0xb7 => 0x5de5_e64e_fd96_5432
    case 0xb8 => 0xb99d_7ed1_5d9d_8743 case 0xb9 => 0xc345_0e19_6da8_0e3a
    case 0xba => 0x4c2d_9f41_3df6_95b1 case 0xbb => 0x36f5_ef89_0dc3_1cc8
    case 0xbc => 0x79a5_9ba2_c5dc_31cc case 0xbd => 0x037d_eb6a_f5e9_b8b5
    case 0xbe => 0x8c15_7a32_a5b7_233e case _ => 0xf6cd_0afa_9582_aa47
  }

  function RowC(b: bv8): bv64 {
    match b
    case 0xc0 => 0x4ad6_4994_d625_e4da case 0xc1 => 0x300e_395c_e610_6da3
    case 0xc2 => 0xbf66_a804_b64e_f628 case 0xc3 => 0xc5be_d8cc_867b_7f51
    case 0xc4 => 0x8aee_ace7_4e64_5255 case 0xc5 => 0xf036_dc2f_7e51_db2c
    case 0xc6 => 0x7f5e_4d77_2e0f_40a7 case 0xc7 => 0x0586_3dbf_1e3a_c9de
    case 0xc8 => 0xe1fe_a520_be31_1aaf case 0xc9 => 0x9b26_d5e8_8e04_93d6
    case 0xca => 0x144e_44b0_de5a_085d case 0xcb => 0x6e96_3478_ee6f_8124
    case 0xcc => 0x21c6_4053_2670_ac20 case 0xcd => 0x5b1e_309b_1645_2559
    case 0xce => 0xd476_a1c3_461b_bed2 case _ => 0xaeae_d10b_762e_37ab
  }

  function RowD(b: bv8): bv64 {
    match b
    case 0xd0 => 0x37de_b6af_5e9b_8b5b case 0xd1 => 0x4d06_c667_6eae_0222
    case 0xd2 => 0xc26e_573f_3ef0_99a9 case 0xd3 => 0xb8b6_27f7_0ec5_10d0
    case 0xd4 => 0xf7e6_53dc_c6da_3dd4 case 0xd5 => 0x8d3e_2314_f6ef_b4ad
    case 0xd6 => 0x0256_b24c_a6b1_2f26 case 0xd7 => 0x788e_c284_9684_a65f
    case 0xd8 => 0x9cf6_5a1b_368f_752e case 0xd9 => 0xe62e_2ad3_06ba_fc57
    case 0xda => 0x6946_bb8b_56e4_67dc case 0xdb => 0x139e_cb43_66d1_eea5
    case 0xdc => 0x5cce_bf68_aece_c3a1 case 0xdd => 0x2616_cfa0_9efb_4ad8
    case 0xde => 0xa97e_5ef8_cea5_d153 case _ => 0xd3a6_2e30_fe90_582a
  }

  function RowE(b: bv8): bv64 {
    match b
    case 0xe0 => 0xb0c7_b7e3_c759_3bd8 case 0xe1 => 0xca1f_c72b_f76c_b2a1
    case 0xe2 => 0x4577_5673_a732_292a case 0xe3 => 0x3faf_26bb_9707_a053
    case 0xe4 => 0x70ff_5290_5f18_8d57 case 0xe5 => 0x0a27_2258_6f2d_042e
    case 0xe6 => 0x854f_b300_3f73_9fa5 case 0xe7 => 0xff97_c3c8_0f46_16dc
    case 0xe8 => 0x1bef_5b57_af4d_c5ad case 0xe9 => 0x6137_2b9f_9f78_4cd4
    case 0xea => 0xee5f_bac7_cf26_d75f case 0xeb => 0x9487_ca0f_ff13_5e26
    case 0xec => 0xdbd7_be24_370c_7322 case 0xed => 0xa10f_ceec_0739_fa5b
    case 0xee => 0x2e67_5fb4_5767_61d0 case _ => 0x54bf_2f7c_6752_e8a9
  }

  function RowF(b: bv8): bv64 {
    match b
    case 0xf0 => 0xcdcf_48d8_4fe7_5459 case 0xf1 => 0xb717_3810_7fd2_dd20
    case 0xf2 => 0x387f_a948_2f8c_46ab case 0xf3 => 0x42a7_d980_1fb9_cfd2
    case 0xf4 => 0x0df7_adab_d7a6_e2d6 case 0xf5 => 0x772f_dd63_e793_6baf
    case 0xf6 => 0xf847_4c3b_b7cd_f024 case 0xf7 => 0x829f_3cf3_87f8_795d
    case 0xf8 => 0x66e7_a46c_27f3_aa2c case 0xf9 => 0x1c3f_d4a4_17c6_2355
    case 0xfa => 0x9357_45fc_4798_b8de case 0xfb => 0xe98f_3534_77ad_31a7
    case 0xfc => 0xa6df_411f_bfb2_1ca3 case 0xfd => 0xdc07_31d7_8f87_95da
    case 0xfe => 0x536f_a08f_dfd9_0e51 case _ => 0x29b7_d047_efec_8728
  }

  /** crc64_tab. */
  function Table(b: bv8): bv64 {
    match b >> 4

    case 0 => Row0(b)
    case 1 => Row1(b)
    case 2 => Row2(b)
    case 3 => Row3(b)
    case 4 => Row4(b)
    case 5 => Row5(b)
    case 6 => Row6(b)
    case 7 => Row7(b)
    case 8 => Row8(b)
    case 9 => Row9(b)
    case 10 => RowA(b)
    case 11 => RowB(b)
    case 12 => RowC(b)
    case 13 => RowD(b)
    case 14 => RowE(b)
    case _ => RowF(b)
  }

  /** Eight steps written out. */
  function Steps8(c: bv64): bv64 {
    Step(Step(Step(Step(Step(Step(Step(Step(c))))))))
  }

  lemma Steps8Is(c: bv64)
    ensures Steps8(c) == Steps(c, 8)
  {
    hide Step;
    Eight(c);
  }

  lemma Row0Is(b: bv8)
    requires b >> 4 == 0
    ensures Row0(b) == Steps8(b as bv64)
  {
  }

  lemma Row1Is(b: bv8)
    requires b >> 4 == 1
    ensures Row1(b) == Steps8(b as bv64)
  {
  }

  lemma Row2Is(b: bv8)
    requires b >> 4 == 2
    ensures Row2(b) == Steps8(b as bv64)
  {
  }

  lemma Row3Is(b: bv8)
    requires b >> 4 == 3
    ensures Row3(b) == Steps8(b as bv64)
  {
  }

  lemma Row4Is(b: bv8)
    requires b >> 4 == 4
    ensures Row4(b) == Steps8(b as bv64)
  {
  }

  lemma Row5Is(b: bv8)
    requires b >> 4 == 5
    ensures Row5(b) == Steps8(b as bv64)
  {
  }

  lemma Row6Is(b: bv8)
    requires b >> 4 == 6
    ensures Row6(b) == Steps8(b as bv64)
  {
  }

  lemma Row7Is(b: bv8)
    requires b >> 4 == 7
    ensures Row7(b) == Steps8(b as bv64)
  {
  }

  lemma Row8Is(b: bv8)
    requires b >> 4 == 8
    ensures Row8(b) == Steps8(b as bv64)
  {
  }

  lemma Row9Is(b: bv8)
    requires b >> 4 == 9
    ensures Row9(b) == Steps8(b as bv64)
  {
  }

  lemma RowAIs(b: bv8)
    requires b >> 4 == 10
    ensures RowA(b) == Steps8(b as bv64)
  {
  }

  lemma RowBIs(b: bv8)
    requires b >> 4 == 11
    ensures RowB(b) == Steps8(b as bv64)
  {
  }

  lemma RowCIs(b: bv8)
    requires b >> 4 == 12
    ensures RowC(b) == Steps8(b as bv64)
  {
  }

  lemma RowDIs(b: bv8)
    requires b >> 4 == 13
    ensures RowD(b) == Steps8(b as bv64)
  {
  }

  lemma RowEIs(b: bv8)
    requires b >> 4 == 14
    ensures RowE(b) == Steps8(b as bv64)
  {
  }

  lemma RowFIs(b: bv8)
    requires b >> 4 == 15
    ensures RowF(b) == Steps8(b as bv64)
  {
  }

  /** Every entry of the table is eight steps of the register from its index. */
  lemma TableIsSteps(b: bv8)
    ensures Table(b) == Steps(b as bv64, 8)
  {
    hide Steps8, Steps, Row0, Row1, Row2, Row3, Row4, Row5, Row6, Row7, Row8, Row9, RowA, RowB, RowC, RowD, RowE, RowF;
    Steps8Is(b as bv64);
    match b >> 4
    case 0 => Row0Is(b);
    case 1 => Row1Is(b);
    case 2 => Row2Is(b);
    case 3 => Row3Is(b);
    case 4 => Row4Is(b);
    case 5 => Row5Is(b);
    case 6 => Row6Is(b);
    case 7 => Row7Is(b);
    case 8 => Row8Is(b);
    case 9 => Row9Is(b);
    case 10 => RowAIs(b);
    case 11 => RowBIs(b);
    case 12 => RowCIs(b);
    case 13 => RowDIs(b);
    case 14 => RowEIs(b);
    case _ => RowFIs(b);
  }

  function HighPart(x: bv64): bv64 { x & 0xFFFF_FFFF_FFFF_FF00 }
  function LowPart(x: bv64): bv64 { x & 0xFF }

  /** (byte)crc ^ b, the index into the table. */
  function Index(crc: bv64, b: bv8): bv8 { ((crc & 0xFF) as bv8) ^ b }

  /** One turn of the loop: a lookup instead of eight steps. */
  function Next(crc: bv64, b: bv8): bv64 { Xor(Table(Index(crc, b)), crc >> 8) }

  /** The bits above the low byte only move down. */
  lemma HighBits(x: bv64)
    ensures Steps8(HighPart(x)) == x >> 8
  {
  }

  lemma SplitSum(x: bv64)
    ensures x == Xor(LowPart(x), HighPart(x))
  {
  }

  lemma LowIndex(crc: bv64, b: bv8)
    ensures LowPart(Xor(crc, b as bv64)) == Index(crc, b) as bv64
  {
  }

  lemma HighStays(crc: bv64, b: bv8)
    ensures Xor(crc, b as bv64) >> 8 == crc >> 8
  {
  }

  /** A lookup does the work of eight steps. */
  lemma ByteStep(crc: bv64, b: bv8)
    ensures Steps(Xor(crc, b as bv64), 8) == Next(crc, b)
  {
    hide Table, Steps, Steps8, Step, Xor, Index, HighPart, LowPart;
    var x := Xor(crc, b as bv64);
    SplitSum(x);
    LowIndex(crc, b);
    HighStays(crc, b);
    StepsLinear(LowPart(x), HighPart(x), 8);
    HighBits(x);
    Steps8Is(HighPart(x));
    TableIsSteps(Index(crc, b));
  }

  lemma CrcNext(s: seq<bv8>, crc: bv64, b: bv8, index: bv8, entry: bv64, next: bv64)
    requires BitCrc(s) == crc && Index(crc, b) == index && Table(index) == entry && Xor(entry, crc >> 8) == next
    ensures BitCrc(s + [b]) == next
  {
    hide Steps, Xor, Table, Index;
    ByteStep(BitCrc(s), b);
    assert (s + [b])[..|s|] == s;
  }

  lemma EntriesA()
    ensures Table(0x31) == 0xfdc1_7184_a9f7_39fa
    ensures Table(0xc8) == 0xe1fe_a520_be31_1aaf
    ensures Table(0xa5) == 0xd55d_f8e5_1543_2941
  {
  }

  lemma EntriesB()
    ensures Table(0x98) == 0x438c_80a6_4ce1_5841
    ensures Table(0xc5) == 0xf036_dc2f_7e51_db2c
    ensures Table(0x3b) == 0xa359_7ca0_a188_d57d
  {
  }

  lemma EntriesC()
    ensures Table(0x34) == 0x4721_e43f_0183_060c
    ensures Table(0x7d) == 0x49ab_a2fe_23cc_5c6f
    ensures Table(0xfb) == 0xe98f_3534_77ad_31a7
  {
  }

  /** The published check value of this polynomial: the checksum of the digits 1 to 9. */
  lemma CheckValue()
    ensures BitCrc([]) == 0
    ensures BitCrc([0x31, 0x32, 0x33, 0x34, 0x35, 0x36, 0x37, 0x38, 0x39]) == 0xe9c6_d914_c4b8_d9ca
  {
    hide BitCrc, Table;
    var s: seq<bv8> := [0x31, 0x32, 0x33, 0x34, 0x35, 0x36, 0x37, 0x38, 0x39];
    NoBytes();
    EntriesA();
    EntriesB();
    EntriesC();
    assert s[..0] == [];
    CrcNext(s[..0], 0x0000_0000_0000_0000, 0x31, 0x31, 0xfdc1_7184_a9f7_39fa, 0xfdc1_7184_a9f7_39fa);
    assert s[..0] + [0x31] == s[..1];
    CrcNext(s[..1], 0xfdc1_7184_a9f7_39fa, 0x32, 0xc8, 0xe1fe_a520_be31_1aaf, 0xe103_6451_3a98_ed96);
    assert s[..1] + [0x32] == s[..2];
    CrcNext(s[..2], 0xe103_6451_3a98_ed96, 0x33, 0xa5, 0xd55d_f8e5_1543_2941, 0xd5bc_fb81_4479_b1ac);
    assert s[..2] + [0x33] == s[..3];
    CrcNext(s[..3], 0xd5bc_fb81_4479_b1ac, 0x34, 0x98, 0x438c_80a6_4ce1_5841, 0x4359_3c5d_cda5_21f0);
    assert s[..3] + [0x34] == s[..4];
    CrcNext(s[..4], 0x4359_3c5d_cda5_21f0, 0x35, 0xc5, 0xf036_dc2f_7e51_db2c, 0xf075_8513_239c_7e0d);
    assert s[..4] + [0x35] == s[..5];
    CrcNext(s[..5], 0xf075_8513_239c_7e0d, 0x36, 0x3b, 0xa359_7ca0_a188_d57d, 0xa3a9_0925_b2ab_4903);
    assert s[..5] + [0x36] == s[..6];
    CrcNext(s[..6], 0xa3a9_0925_b2ab_4903, 0x37, 0x34, 0x4721_e43f_0183_060c, 0x4782_4d36_2431_ad45);
    assert s[..6] + [0x37] == s[..7];
    CrcNext(s[..7], 0x4782_4d36_2431_ad45, 0x38, 0x7d, 0x49ab_a2fe_23cc_5c6f, 0x49ec_20b3_15e8_6dc2);
    assert s[..7] + [0x38] == s[..8];
    CrcNext(s[..8], 0x49ec_20b3_15e8_6dc2, 0x39, 0xfb, 0xe98f_3534_77ad_31a7, 0xe9c6_d914_c4b8_d9ca);
    assert s[..8] + [0x39] == s[..9];
    assert s[..9] == s;
  }

  lemma NoBytes()
    ensures BitCrc([]) == 0
  {
  }

  // ---------------------------------------------------------------- the code

  /** Crc64: one lookup a byte, over at most len bytes from an offset. */
  method Crc64(buf: array<bv8>, offset: nat, len: nat) returns (crc: bv64)
    ensures offset <= buf.Length ==>
              crc == BitCrc(if offset + len <= buf.Length then buf[offset..offset + len] else buf[offset..])
    ensures offset > buf.Length ==> crc == 0
  {
    hide Next, Steps, Xor;
    crc := 0;
    var i := offset;
    while i < buf.Length && i < offset + len
      invariant offset <= i <= offset + len
      invariant offset <= buf.Length ==> i <= buf.Length && crc == BitCrc(buf[offset..i])
      invariant offset > buf.Length ==> crc == 0
    {
      ByteStep(crc, buf[i]);
      assert buf[offset..i + 1][..i - offset] == buf[offset..i];
      crc := Next(crc, buf[i]);
      i := i + 1;
    }
    assert offset <= buf.Length && i == buf.Length ==> buf[offset..i] == buf[offset..];
  }

  method Crc32(buf: array<bv8>, offset: nat, len: nat) returns (crc: bv32)
    ensures offset <= buf.Length ==>
              crc == (BitCrc(if offset + len <= buf.Length then buf[offset..offset + len] else buf[offset..]) & 0xFFFF_FFFF) as bv32
  {
    var crc64code := Crc64(buf, offset, len);
    crc := (crc64code & 0xFFFF_FFFF) as bv32;
  }

  // ---------------------------------------------------------------- what it detects

  lemma XorDiffers(a: bv64, b: bv64, c: bv64)
    ensures a != b ==> Xor(a, c) != Xor(b, c) && Xor(c, a) != Xor(c, b)
  {
  }

  lemma BytesDiffer(a: bv8, b: bv8)
    ensures a != b ==> a as bv64 != b as bv64
  {
  }

  /** A difference in the register survives any common rest. */
  lemma {:induction false} DifferenceStays(a: seq<bv8>, b: seq<bv8>, rest: seq<bv8>)
    requires BitCrc(a) != BitCrc(b)
    ensures BitCrc(a + rest) != BitCrc(b + rest)
  {
    hide Steps, Xor;
    if rest == [] {
      assert a + rest == a && b + rest == b;
    } else {
      var init, last := rest[..|rest| - 1], rest[|rest| - 1];
      DifferenceStays(a, b, init);
      assert (a + rest)[..|a + rest| - 1] == a + init && (b + rest)[..|b + rest| - 1] == b + init;
      XorDiffers(BitCrc(a + init), BitCrc(b + init), last as bv64);
      StepsInjective(Xor(BitCrc(a + init), last as bv64), Xor(BitCrc(b + init), last as bv64), 8);
    }
  }

  /** The 64-bit checksum detects every error that is confined to one byte. */
  lemma OneByteDetected(pre: seq<bv8>, x: bv8, y: bv8, post: seq<bv8>)
    requires x != y
    ensures BitCrc(pre + [x] + post) != BitCrc(pre + [y] + post)
  {
    hide Steps, Xor;
    assert (pre + [x])[..|pre|] == pre && (pre + [y])[..|pre|] == pre;
    BytesDiffer(x, y);
    XorDiffers(x as bv64, y as bv64, BitCrc(pre));
    StepsInjective(Xor(BitCrc(pre), x as bv64), Xor(BitCrc(pre), y as bv64), 8);
    DifferenceStays(pre + [x], pre + [y], post);
  }
}
