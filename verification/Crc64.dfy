/** The CRC-64 of DUMP payloads: the table-driven loop computes the bit-serial register, and
    each of its steps can be undone. */
module Crc64 {
  import opened ByteRegister
  import opened Words

  /** The polynomial 0xad93d23594c935a9 with its bits reversed. */
  const POLY: Word := 0x95ac_9329_ac4b_c9b5

  /** Eight steps of the shift register: a bit leaves, and the polynomial comes in if it was
      set. */
  function Eight(x0: Word): Word {
    var x1 := (x0 >> 1) ^ (if x0 & 1 == 1 then POLY else 0);
    var x2 := (x1 >> 1) ^ (if x1 & 1 == 1 then POLY else 0);
    var x3 := (x2 >> 1) ^ (if x2 & 1 == 1 then POLY else 0);
    var x4 := (x3 >> 1) ^ (if x3 & 1 == 1 then POLY else 0);
    var x5 := (x4 >> 1) ^ (if x4 & 1 == 1 then POLY else 0);
    var x6 := (x5 >> 1) ^ (if x5 & 1 == 1 then POLY else 0);
    var x7 := (x6 >> 1) ^ (if x6 & 1 == 1 then POLY else 0);
    (x7 >> 1) ^ (if x7 & 1 == 1 then POLY else 0)
  }

  // ----- the table ------------------------------------------------------------------------

  function Row0(i: bv8): Word {
    match i
    case 0 => 0x0000_0000_0000_0000
    case 1 => 0x7ad8_70c8_3035_8979
    case 2 => 0xf5b0_e190_606b_12f2
    case 3 => 0x8f68_9158_505e_9b8b
    case 4 => 0xc038_e573_9841_b68f
    case 5 => 0xbae0_95bb_a874_3ff6
    case 6 => 0x3588_04e3_f82a_a47d
    case 7 => 0x4f50_742b_c81f_2d04
    case 8 => 0xab28_ecb4_6814_fe75
    case 9 => 0xd1f0_9c7c_5821_770c
    case 10 => 0x5e98_0d24_087f_ec87
    case 11 => 0x2440_7dec_384a_65fe
    case 12 => 0x6b10_09c7_f055_48fa
    case 13 => 0x11c8_790f_c060_c183
    case 14 => 0x9ea0_e857_903e_5a08
    case _ => 0xe478_989f_a00b_d371
  }

  function Row1(i: bv8): Word {
    match i
    case 0 => 0x7d08_ff3b_88be_6f81
    case 1 => 0x07d0_8ff3_b88b_e6f8
    case 2 => 0x88b8_1eab_e8d5_7d73
    case 3 => 0xf260_6e63_d8e0_f40a
    case 4 => 0xbd30_1a48_10ff_d90e
    case 5 => 0xc7e8_6a80_20ca_5077
    case 6 => 0x4880_fbd8_7094_cbfc
    case 7 => 0x3258_8b10_40a1_4285
    case 8 => 0xd620_138f_e0aa_91f4
    case 9 => 0xacf8_6347_d09f_188d
    case 10 => 0x2390_f21f_80c1_8306
    case 11 => 0x5948_82d7_b0f4_0a7f
    case 12 => 0x1618_f6fc_78eb_277b
    case 13 => 0x6cc0_8634_48de_ae02
    case 14 => 0xe3a8_176c_1880_3589
    case _ => 0x9970_67a4_28b5_bcf0
  }

  function Row2(i: bv8): Word {
    match i
    case 0 => 0xfa11_fe77_117c_df02
    case 1 => 0x80c9_8ebf_2149_567b
    case 2 => 0x0fa1_1fe7_7117_cdf0
    case 3 => 0x7579_6f2f_4122_4489
    case 4 => 0x3a29_1b04_893d_698d
    case 5 => 0x40f1_6bcc_b908_e0f4
    case 6 => 0xcf99_fa94_e956_7b7f
    case 7 => 0xb541_8a5c_d963_f206
    case 8 => 0x5139_12c3_7968_2177
    case 9 => 0x2be1_620b_495d_a80e
    case 10 => 0xa489_f353_1903_3385
    case 11 => 0xde51_839b_2936_bafc
    case 12 => 0x9101_f7b0_e129_97f8
    case 13 => 0xebd9_8778_d11c_1e81
    case 14 => 0x64b1_1620_8142_850a
    case _ => 0x1e69_66e8_b177_0c73
  }

  function Row3(i: bv8): Word {
    match i
    case 0 => 0x8719_014c_99c2_b083
    case 1 => 0xfdc1_7184_a9f7_39fa
    case 2 => 0x72a9_e0dc_f9a9_a271
    case 3 => 0x0871_9014_c99c_2b08
    case 4 => 0x4721_e43f_0183_060c
    case 5 => 0x3df9_94f7_31b6_8f75
    case 6 => 0xb291_05af_61e8_14fe
    case 7 => 0xc849_7567_51dd_9d87
    case 8 => 0x2c31_edf8_f1d6_4ef6
    case 9 => 0x56e9_9d30_c1e3_c78f
    case 10 => 0xd981_0c68_91bd_5c04
    case 11 => 0xa359_7ca0_a188_d57d
    case 12 => 0xec09_088b_6997_f879
    case 13 => 0x96d1_7843_59a2_7100
    case 14 => 0x19b9_e91b_09fc_ea8b
    case _ => 0x6361_99d3_39c9_63f2
  }

  function Row4(i: bv8): Word {
    match i
    case 0 => 0xdf7a_dabd_7a6e_2d6f
    case 1 => 0xa5a2_aa75_4a5b_a416
    case 2 => 0x2aca_3b2d_1a05_3f9d
    case 3 => 0x5012_4be5_2a30_b6e4
    case 4 => 0x1f42_3fce_e22f_9be0
    case 5 => 0x659a_4f06_d21a_1299
    case 6 => 0xeaf2_de5e_8244_8912
    case 7 => 0x902a_ae96_b271_006b
    case 8 => 0x7452_3609_127a_d31a
    case 9 => 0x0e8a_46c1_224f_5a63
    case 10 => 0x81e2_d799_7211_c1e8
    case 11 => 0xfb3a_a751_4224_4891
    case 12 => 0xb46a_d37a_8a3b_6595
    case 13 => 0xceb2_a3b2_ba0e_ecec
    case 14 => 0x41da_32ea_ea50_7767
    case _ => 0x3b02_4222_da65_fe1e
  }

  function Row5(i: bv8): Word {
    match i
    case 0 => 0xa272_2586_f2d0_42ee
    case 1 => 0xd8aa_554e_c2e5_cb97
    case 2 => 0x57c2_c416_92bb_501c
    case 3 => 0x2d1a_b4de_a28e_d965
    case 4 => 0x624a_c0f5_6a91_f461
    case 5 => 0x1892_b03d_5aa4_7d18
    case 6 => 0x97fa_2165_0afa_e693
    case 7 => 0xed22_51ad_3acf_6fea
    case 8 => 0x095a_c932_9ac4_bc9b
    case 9 => 0x7382_b9fa_aaf1_35e2
    case 10 => 0xfcea_28a2_faaf_ae69
    case 11 => 0x8632_586a_ca9a_2710
    case 12 => 0xc962_2c41_0285_0a14
    case 13 => 0xb3ba_5c89_32b0_836d
    case 14 => 0x3cd2_cdd1_62ee_18e6
    case _ => 0x460a_bd19_52db_919f
  }

  function Row6(i: bv8): Word {
    match i
    case 0 => 0x256b_24ca_6b12_f26d
    case 1 => 0x5fb3_5402_5b27_7b14
    case 2 => 0xd0db_c55a_0b79_e09f
    case 3 => 0xaa03_b592_3b4c_69e6
    case 4 => 0xe553_c1b9_f353_44e2
    case 5 => 0x9f8b_b171_c366_cd9b
    case 6 => 0x10e3_2029_9338_5610
    case 7 => 0x6a3b_50e1_a30d_df69
    case 8 => 0x8e43_c87e_0306_0c18
    case 9 => 0xf49b_b8b6_3333_8561
    case 10 => 0x7bf3_29ee_636d_1eea
    case 11 => 0x012b_5926_5358_9793
    case 12 => 0x4e7b_2d0d_9b47_ba97
    case 13 => 0x34a3_5dc5_ab72_33ee
    case 14 => 0xbbcb_cc9d_fb2c_a865
    case _ => 0xc113_bc55_cb19_211c
  }

  function Row7(i: bv8): Word {
    match i
    case 0 => 0x5863_dbf1_e3ac_9dec
    case 1 => 0x22bb_ab39_d399_1495
    case 2 => 0xadd3_3a61_83c7_8f1e
    case 3 => 0xd70b_4aa9_b3f2_0667
    case 4 => 0x985b_3e82_7bed_2b63
    case 5 => 0xe283_4e4a_4bd8_a21a
    case 6 => 0x6deb_df12_1b86_3991
    case 7 => 0x1733_afda_2bb3_b0e8
    case 8 => 0xf34b_3745_8bb8_6399
    case 9 => 0x8993_478d_bb8d_eae0
    case 10 => 0x06fb_d6d5_ebd3_716b
    case 11 => 0x7c23_a61d_dbe6_f812
    case 12 => 0x3373_d236_13f9_d516
    case 13 => 0x49ab_a2fe_23cc_5c6f
    case 14 => 0xc6c3_33a6_7392_c7e4
    case _ => 0xbc1b_436e_43a7_4e9d
  }

  function Row8(i: bv8): Word {
    match i
    case 0 => 0x95ac_9329_ac4b_c9b5
    case 1 => 0xef74_e3e1_9c7e_40cc
    case 2 => 0x601c_72b9_cc20_db47
    case 3 => 0x1ac4_0271_fc15_523e
    case 4 => 0x5594_765a_340a_7f3a
    case 5 => 0x2f4c_0692_043f_f643
    case 6 => 0xa024_97ca_5461_6dc8
    case 7 => 0xdafc_e702_6454_e4b1
    case 8 => 0x3e84_7f9d_c45f_37c0
    case 9 => 0x445c_0f55_f46a_beb9
    case 10 => 0xcb34_9e0d_a434_2532
    case 11 => 0xb1ec_eec5_9401_ac4b
    case 12 => 0xfebc_9aee_5c1e_814f
    case 13 => 0x8464_ea26_6c2b_0836
    case 14 => 0x0b0c_7b7e_3c75_93bd
    case _ => 0x71d4_0bb6_0c40_1ac4
  }

  function Row9(i: bv8): Word {
    match i
    case 0 => 0xe8a4_6c12_24f5_a634
    case 1 => 0x927c_1cda_14c0_2f4d
    case 2 => 0x1d14_8d82_449e_b4c6
    case 3 => 0x67cc_fd4a_74ab_3dbf
    case 4 => 0x289c_8961_bcb4_10bb
    case 5 => 0x5244_f9a9_8c81_99c2
    case 6 => 0xdd2c_68f1_dcdf_0249
    case 7 => 0xa7f4_1839_ecea_8b30
    case 8 => 0x438c_80a6_4ce1_5841
    case 9 => 0x3954_f06e_7cd4_d138
    case 10 => 0xb63c_6136_2c8a_4ab3
    case 11 => 0xcce4_11fe_1cbf_c3ca
    case 12 => 0x83b4_65d5_d4a0_eece
    case 13 => 0xf96c_151d_e495_67b7
    case 14 => 0x7604_8445_b4cb_fc3c
    case _ => 0x0cdc_f48d_84fe_7545
  }

  function RowA(i: bv8): Word {
    match i
    case 0 => 0x6fbd_6d5e_bd37_16b7
    case 1 => 0x1565_1d96_8d02_9fce
    case 2 => 0x9a0d_8cce_dd5c_0445
    case 3 => 0xe0d5_fc06_ed69_8d3c
    case 4 => 0xaf85_882d_2576_a038
    case 5 => 0xd55d_f8e5_1543_2941
    case 6 => 0x5a35_69bd_451d_b2ca
    case 7 => 0x20ed_1975_7528_3bb3
    case 8 => 0xc495_81ea_d523_e8c2
    case 9 => 0xbe4d_f122_e516_61bb
    case 10 => 0x3125_607a_b548_fa30
    case 11 => 0x4bfd_10b2_857d_7349
    case 12 => 0x04ad_6499_4d62_5e4d
    case 13 => 0x7e75_1451_7d57_d734
    case 14 => 0xf11d_8509_2d09_4cbf
    case _ => 0x8bc5_f5c1_1d3c_c5c6
  }

  function RowB(i: bv8): Word {
    match i
    case 0 => 0x12b5_9265_3589_7936
    case 1 => 0x686d_e2ad_05bc_f04f
    case 2 => 0xe705_73f5_55e2_6bc4
    case 3 => 0x9ddd_033d_65d7_e2bd
    case 4 => 0xd28d_7716_adc8_cfb9
    case 5 => 0xa855_07de_9dfd_46c0
    case 6 => 0x273d_9686_cda3_dd4b
    case 7 => 0x5de5_e64e_fd96_5432
    case 8 => 0xb99d_7ed1_5d9d_8743
    case 9 => 0xc345_0e19_6da8_0e3a
    case 10 => 0x4c2d_9f41_3df6_95b1
    case 11 => 0x36f5_ef89_0dc3_1cc8
    case 12 => 0x79a5_9ba2_c5dc_31cc
    case 13 => 0x037d_eb6a_f5e9_b8b5
    case 14 => 0x8c15_7a32_a5b7_233e
    case _ => 0xf6cd_0afa_9582_aa47
  }

  function RowC(i: bv8): Word {
    match i
    case 0 => 0x4ad6_4994_d625_e4da
    case 1 => 0x300e_395c_e610_6da3
    case 2 => 0xbf66_a804_b64e_f628
    case 3 => 0xc5be_d8cc_867b_7f51
    case 4 => 0x8aee_ace7_4e64_5255
    case 5 => 0xf036_dc2f_7e51_db2c
    case 6 => 0x7f5e_4d77_2e0f_40a7
    case 7 => 0x0586_3dbf_1e3a_c9de
    case 8 => 0xe1fe_a520_be31_1aaf
    case 9 => 0x9b26_d5e8_8e04_93d6
    case 10 => 0x144e_44b0_de5a_085d
    case 11 => 0x6e96_3478_ee6f_8124
    case 12 => 0x21c6_4053_2670_ac20
    case 13 => 0x5b1e_309b_1645_2559
    case 14 => 0xd476_a1c3_461b_bed2
    case _ => 0xaeae_d10b_762e_37ab
  }

  function RowD(i: bv8): Word {
    match i
    case 0 => 0x37de_b6af_5e9b_8b5b
    case 1 => 0x4d06_c667_6eae_0222
    case 2 => 0xc26e_573f_3ef0_99a9
    case 3 => 0xb8b6_27f7_0ec5_10d0
    case 4 => 0xf7e6_53dc_c6da_3dd4
    case 5 => 0x8d3e_2314_f6ef_b4ad
    case 6 => 0x0256_b24c_a6b1_2f26
    case 7 => 0x788e_c284_9684_a65f
    case 8 => 0x9cf6_5a1b_368f_752e
    case 9 => 0xe62e_2ad3_06ba_fc57
    case 10 => 0x6946_bb8b_56e4_67dc
    case 11 => 0x139e_cb43_66d1_eea5
    case 12 => 0x5cce_bf68_aece_c3a1
    case 13 => 0x2616_cfa0_9efb_4ad8
    case 14 => 0xa97e_5ef8_cea5_d153
    case _ => 0xd3a6_2e30_fe90_582a
  }

  function RowE(i: bv8): Word {
    match i
    case 0 => 0xb0c7_b7e3_c759_3bd8
    case 1 => 0xca1f_c72b_f76c_b2a1
    case 2 => 0x4577_5673_a732_292a
    case 3 => 0x3faf_26bb_9707_a053
    case 4 => 0x70ff_5290_5f18_8d57
    case 5 => 0x0a27_2258_6f2d_042e
    case 6 => 0x854f_b300_3f73_9fa5
    case 7 => 0xff97_c3c8_0f46_16dc
    case 8 => 0x1bef_5b57_af4d_c5ad
    case 9 => 0x6137_2b9f_9f78_4cd4
    case 10 => 0xee5f_bac7_cf26_d75f
    case 11 => 0x9487_ca0f_ff13_5e26
    case 12 => 0xdbd7_be24_370c_7322
    case 13 => 0xa10f_ceec_0739_fa5b
    case 14 => 0x2e67_5fb4_5767_61d0
    case _ => 0x54bf_2f7c_6752_e8a9
  }

  function RowF(i: bv8): Word {
    match i
    case 0 => 0xcdcf_48d8_4fe7_5459
    case 1 => 0xb717_3810_7fd2_dd20
    case 2 => 0x387f_a948_2f8c_46ab
    case 3 => 0x42a7_d980_1fb9_cfd2
    case 4 => 0x0df7_adab_d7a6_e2d6
    case 5 => 0x772f_dd63_e793_6baf
    case 6 => 0xf847_4c3b_b7cd_f024
    case 7 => 0x829f_3cf3_87f8_795d
    case 8 => 0x66e7_a46c_27f3_aa2c
    case 9 => 0x1c3f_d4a4_17c6_2355
    case 10 => 0x9357_45fc_4798_b8de
    case 11 => 0xe98f_3534_77ad_31a7
    case 12 => 0xa6df_411f_bfb2_1ca3
    case 13 => 0xdc07_31d7_8f87_95da
    case 14 => 0x536f_a08f_dfd9_0e51
    case _ => 0x29b7_d047_efec_8728
  }

  /** crc64_tab. */
  function Table(b: Octet): Word {
    match b >> 4
    case 0 => Row0(b & 15)
    case 1 => Row1(b & 15)
    case 2 => Row2(b & 15)
    case 3 => Row3(b & 15)
    case 4 => Row4(b & 15)
    case 5 => Row5(b & 15)
    case 6 => Row6(b & 15)
    case 7 => Row7(b & 15)
    case 8 => Row8(b & 15)
    case 9 => Row9(b & 15)
    case 10 => RowA(b & 15)
    case 11 => RowB(b & 15)
    case 12 => RowC(b & 15)
    case 13 => RowD(b & 15)
    case 14 => RowE(b & 15)
    case _ => RowF(b & 15)
  }

  /** The byte whose eight steps leave `t` in the top byte. */
  function Back(t: Octet): Octet {
    (if t & 1 != 0 then 107 else 0) ^ (if t & 2 != 0 then 214 else 0) ^
    (if t & 4 != 0 then 172 else 0) ^ (if t & 8 != 0 then 51 else 0) ^
    (if t & 16 != 0 then 102 else 0) ^ (if t & 32 != 0 then 167 else 0) ^
    (if t & 64 != 0 then 37 else 0) ^ (if t & 128 != 0 then 33 else 0)
  }

  lemma Row0IsEight(b: Octet)
    requires b >> 4 == 0
    ensures Row0(b & 15) == Eight(b as Word) && Back(Top(Row0(b & 15))) == b
  {
    match b & 15
    case 0 => assert Eight(0) == Row0(0); case 1 => assert Eight(1) == Row0(1);
    case 2 => assert Eight(2) == Row0(2); case 3 => assert Eight(3) == Row0(3);
    case 4 => assert Eight(4) == Row0(4); case 5 => assert Eight(5) == Row0(5);
    case 6 => assert Eight(6) == Row0(6); case 7 => assert Eight(7) == Row0(7);
    case 8 => assert Eight(8) == Row0(8); case 9 => assert Eight(9) == Row0(9);
    case 10 => assert Eight(10) == Row0(10); case 11 => assert Eight(11) == Row0(11);
    case 12 => assert Eight(12) == Row0(12); case 13 => assert Eight(13) == Row0(13);
    case 14 => assert Eight(14) == Row0(14); case _ => assert Eight(15) == Row0(15);
  }

  lemma Row1IsEight(b: Octet)
    requires b >> 4 == 1
    ensures Row1(b & 15) == Eight(b as Word) && Back(Top(Row1(b & 15))) == b
  {
    match b & 15
    case 0 => assert Eight(16) == Row1(0); case 1 => assert Eight(17) == Row1(1);
    case 2 => assert Eight(18) == Row1(2); case 3 => assert Eight(19) == Row1(3);
    case 4 => assert Eight(20) == Row1(4); case 5 => assert Eight(21) == Row1(5);
    case 6 => assert Eight(22) == Row1(6); case 7 => assert Eight(23) == Row1(7);
    case 8 => assert Eight(24) == Row1(8); case 9 => assert Eight(25) == Row1(9);
    case 10 => assert Eight(26) == Row1(10); case 11 => assert Eight(27) == Row1(11);
    case 12 => assert Eight(28) == Row1(12); case 13 => assert Eight(29) == Row1(13);
    case 14 => assert Eight(30) == Row1(14); case _ => assert Eight(31) == Row1(15);
  }

  lemma Row2IsEight(b: Octet)
    requires b >> 4 == 2
    ensures Row2(b & 15) == Eight(b as Word) && Back(Top(Row2(b & 15))) == b
  {
    match b & 15
    case 0 => assert Eight(32) == Row2(0); case 1 => assert Eight(33) == Row2(1);
    case 2 => assert Eight(34) == Row2(2); case 3 => assert Eight(35) == Row2(3);
    case 4 => assert Eight(36) == Row2(4); case 5 => assert Eight(37) == Row2(5);
    case 6 => assert Eight(38) == Row2(6); case 7 => assert Eight(39) == Row2(7);
    case 8 => assert Eight(40) == Row2(8); case 9 => assert Eight(41) == Row2(9);
    case 10 => assert Eight(42) == Row2(10); case 11 => assert Eight(43) == Row2(11);
    case 12 => assert Eight(44) == Row2(12); case 13 => assert Eight(45) == Row2(13);
    case 14 => assert Eight(46) == Row2(14); case _ => assert Eight(47) == Row2(15);
  }

  lemma Row3IsEight(b: Octet)
    requires b >> 4 == 3
    ensures Row3(b & 15) == Eight(b as Word) && Back(Top(Row3(b & 15))) == b
  {
    match b & 15
    case 0 => assert Eight(48) == Row3(0); case 1 => assert Eight(49) == Row3(1);
    case 2 => assert Eight(50) == Row3(2); case 3 => assert Eight(51) == Row3(3);
    case 4 => assert Eight(52) == Row3(4); case 5 => assert Eight(53) == Row3(5);
    case 6 => assert Eight(54) == Row3(6); case 7 => assert Eight(55) == Row3(7);
    case 8 => assert Eight(56) == Row3(8); case 9 => assert Eight(57) == Row3(9);
    case 10 => assert Eight(58) == Row3(10); case 11 => assert Eight(59) == Row3(11);
    case 12 => assert Eight(60) == Row3(12); case 13 => assert Eight(61) == Row3(13);
    case 14 => assert Eight(62) == Row3(14); case _ => assert Eight(63) == Row3(15);
  }

  lemma Row4IsEight(b: Octet)
    requires b >> 4 == 4
    ensures Row4(b & 15) == Eight(b as Word) && Back(Top(Row4(b & 15))) == b
  {
    match b & 15
    case 0 => assert Eight(64) == Row4(0); case 1 => assert Eight(65) == Row4(1);
    case 2 => assert Eight(66) == Row4(2); case 3 => assert Eight(67) == Row4(3);
    case 4 => assert Eight(68) == Row4(4); case 5 => assert Eight(69) == Row4(5);
    case 6 => assert Eight(70) == Row4(6); case 7 => assert Eight(71) == Row4(7);
    case 8 => assert Eight(72) == Row4(8); case 9 => assert Eight(73) == Row4(9);
    case 10 => assert Eight(74) == Row4(10); case 11 => assert Eight(75) == Row4(11);
    case 12 => assert Eight(76) == Row4(12); case 13 => assert Eight(77) == Row4(13);
    case 14 => assert Eight(78) == Row4(14); case _ => assert Eight(79) == Row4(15);
  }

  lemma Row5IsEight(b: Octet)
    requires b >> 4 == 5
    ensures Row5(b & 15) == Eight(b as Word) && Back(Top(Row5(b & 15))) == b
  {
    match b & 15
    case 0 => assert Eight(80) == Row5(0); case 1 => assert Eight(81) == Row5(1);
    case 2 => assert Eight(82) == Row5(2); case 3 => assert Eight(83) == Row5(3);
    case 4 => assert Eight(84) == Row5(4); case 5 => assert Eight(85) == Row5(5);
    case 6 => assert Eight(86) == Row5(6); case 7 => assert Eight(87) == Row5(7);
    case 8 => assert Eight(88) == Row5(8); case 9 => assert Eight(89) == Row5(9);
    case 10 => assert Eight(90) == Row5(10); case 11 => assert Eight(91) == Row5(11);
    case 12 => assert Eight(92) == Row5(12); case 13 => assert Eight(93) == Row5(13);
    case 14 => assert Eight(94) == Row5(14); case _ => assert Eight(95) == Row5(15);
  }

  lemma Row6IsEight(b: Octet)
    requires b >> 4 == 6
    ensures Row6(b & 15) == Eight(b as Word) && Back(Top(Row6(b & 15))) == b
  {
    match b & 15
    case 0 => assert Eight(96) == Row6(0); case 1 => assert Eight(97) == Row6(1);
    case 2 => assert Eight(98) == Row6(2); case 3 => assert Eight(99) == Row6(3);
    case 4 => assert Eight(100) == Row6(4); case 5 => assert Eight(101) == Row6(5);
    case 6 => assert Eight(102) == Row6(6); case 7 => assert Eight(103) == Row6(7);
    case 8 => assert Eight(104) == Row6(8); case 9 => assert Eight(105) == Row6(9);
    case 10 => assert Eight(106) == Row6(10); case 11 => assert Eight(107) == Row6(11);
    case 12 => assert Eight(108) == Row6(12); case 13 => assert Eight(109) == Row6(13);
    case 14 => assert Eight(110) == Row6(14); case _ => assert Eight(111) == Row6(15);
  }

  lemma Row7IsEight(b: Octet)
    requires b >> 4 == 7
    ensures Row7(b & 15) == Eight(b as Word) && Back(Top(Row7(b & 15))) == b
  {
    match b & 15
    case 0 => assert Eight(112) == Row7(0); case 1 => assert Eight(113) == Row7(1);
    case 2 => assert Eight(114) == Row7(2); case 3 => assert Eight(115) == Row7(3);
    case 4 => assert Eight(116) == Row7(4); case 5 => assert Eight(117) == Row7(5);
    case 6 => assert Eight(118) == Row7(6); case 7 => assert Eight(119) == Row7(7);
    case 8 => assert Eight(120) == Row7(8); case 9 => assert Eight(121) == Row7(9);
    case 10 => assert Eight(122) == Row7(10); case 11 => assert Eight(123) == Row7(11);
    case 12 => assert Eight(124) == Row7(12); case 13 => assert Eight(125) == Row7(13);
    case 14 => assert Eight(126) == Row7(14); case _ => assert Eight(127) == Row7(15);
  }

  lemma Row8IsEight(b: Octet)
    requires b >> 4 == 8
    ensures Row8(b & 15) == Eight(b as Word) && Back(Top(Row8(b & 15))) == b
  {
    match b & 15
    case 0 => assert Eight(128) == Row8(0); case 1 => assert Eight(129) == Row8(1);
    case 2 => assert Eight(130) == Row8(2); case 3 => assert Eight(131) == Row8(3);
    case 4 => assert Eight(132) == Row8(4); case 5 => assert Eight(133) == Row8(5);
    case 6 => assert Eight(134) == Row8(6); case 7 => assert Eight(135) == Row8(7);
    case 8 => assert Eight(136) == Row8(8); case 9 => assert Eight(137) == Row8(9);
    case 10 => assert Eight(138) == Row8(10); case 11 => assert Eight(139) == Row8(11);
    case 12 => assert Eight(140) == Row8(12); case 13 => assert Eight(141) == Row8(13);
    case 14 => assert Eight(142) == Row8(14); case _ => assert Eight(143) == Row8(15);
  }

  lemma Row9IsEight(b: Octet)
    requires b >> 4 == 9
    ensures Row9(b & 15) == Eight(b as Word) && Back(Top(Row9(b & 15))) == b
  {
    match b & 15
    case 0 => assert Eight(144) == Row9(0); case 1 => assert Eight(145) == Row9(1);
    case 2 => assert Eight(146) == Row9(2); case 3 => assert Eight(147) == Row9(3);
    case 4 => assert Eight(148) == Row9(4); case 5 => assert Eight(149) == Row9(5);
    case 6 => assert Eight(150) == Row9(6); case 7 => assert Eight(151) == Row9(7);
    case 8 => assert Eight(152) == Row9(8); case 9 => assert Eight(153) == Row9(9);
    case 10 => assert Eight(154) == Row9(10); case 11 => assert Eight(155) == Row9(11);
    case 12 => assert Eight(156) == Row9(12); case 13 => assert Eight(157) == Row9(13);
    case 14 => assert Eight(158) == Row9(14); case _ => assert Eight(159) == Row9(15);
  }

  lemma RowAIsEight(b: Octet)
    requires b >> 4 == 10
    ensures RowA(b & 15) == Eight(b as Word) && Back(Top(RowA(b & 15))) == b
  {
    match b & 15
    case 0 => assert Eight(160) == RowA(0); case 1 => assert Eight(161) == RowA(1);
    case 2 => assert Eight(162) == RowA(2); case 3 => assert Eight(163) == RowA(3);
    case 4 => assert Eight(164) == RowA(4); case 5 => assert Eight(165) == RowA(5);
    case 6 => assert Eight(166) == RowA(6); case 7 => assert Eight(167) == RowA(7);
    case 8 => assert Eight(168) == RowA(8); case 9 => assert Eight(169) == RowA(9);
    case 10 => assert Eight(170) == RowA(10); case 11 => assert Eight(171) == RowA(11);
    case 12 => assert Eight(172) == RowA(12); case 13 => assert Eight(173) == RowA(13);
    case 14 => assert Eight(174) == RowA(14); case _ => assert Eight(175) == RowA(15);
  }

  lemma RowBIsEight(b: Octet)
    requires b >> 4 == 11
    ensures RowB(b & 15) == Eight(b as Word) && Back(Top(RowB(b & 15))) == b
  {
    match b & 15
    case 0 => assert Eight(176) == RowB(0); case 1 => assert Eight(177) == RowB(1);
    case 2 => assert Eight(178) == RowB(2); case 3 => assert Eight(179) == RowB(3);
    case 4 => assert Eight(180) == RowB(4); case 5 => assert Eight(181) == RowB(5);
    case 6 => assert Eight(182) == RowB(6); case 7 => assert Eight(183) == RowB(7);
    case 8 => assert Eight(184) == RowB(8); case 9 => assert Eight(185) == RowB(9);
    case 10 => assert Eight(186) == RowB(10); case 11 => assert Eight(187) == RowB(11);
    case 12 => assert Eight(188) == RowB(12); case 13 => assert Eight(189) == RowB(13);
    case 14 => assert Eight(190) == RowB(14); case _ => assert Eight(191) == RowB(15);
  }

  lemma RowCIsEight(b: Octet)
    requires b >> 4 == 12
    ensures RowC(b & 15) == Eight(b as Word) && Back(Top(RowC(b & 15))) == b
  {
    match b & 15
    case 0 => assert Eight(192) == RowC(0); case 1 => assert Eight(193) == RowC(1);
    case 2 => assert Eight(194) == RowC(2); case 3 => assert Eight(195) == RowC(3);
    case 4 => assert Eight(196) == RowC(4); case 5 => assert Eight(197) == RowC(5);
    case 6 => assert Eight(198) == RowC(6); case 7 => assert Eight(199) == RowC(7);
    case 8 => assert Eight(200) == RowC(8); case 9 => assert Eight(201) == RowC(9);
    case 10 => assert Eight(202) == RowC(10); case 11 => assert Eight(203) == RowC(11);
    case 12 => assert Eight(204) == RowC(12); case 13 => assert Eight(205) == RowC(13);
    case 14 => assert Eight(206) == RowC(14); case _ => assert Eight(207) == RowC(15);
  }

  lemma RowDIsEight(b: Octet)
    requires b >> 4 == 13
    ensures RowD(b & 15) == Eight(b as Word) && Back(Top(RowD(b & 15))) == b
  {
    match b & 15
    case 0 => assert Eight(208) == RowD(0); case 1 => assert Eight(209) == RowD(1);
    case 2 => assert Eight(210) == RowD(2); case 3 => assert Eight(211) == RowD(3);
    case 4 => assert Eight(212) == RowD(4); case 5 => assert Eight(213) == RowD(5);
    case 6 => assert Eight(214) == RowD(6); case 7 => assert Eight(215) == RowD(7);
    case 8 => assert Eight(216) == RowD(8); case 9 => assert Eight(217) == RowD(9);
    case 10 => assert Eight(218) == RowD(10); case 11 => assert Eight(219) == RowD(11);
    case 12 => assert Eight(220) == RowD(12); case 13 => assert Eight(221) == RowD(13);
    case 14 => assert Eight(222) == RowD(14); case _ => assert Eight(223) == RowD(15);
  }

  lemma RowEIsEight(b: Octet)
    requires b >> 4 == 14
    ensures RowE(b & 15) == Eight(b as Word) && Back(Top(RowE(b & 15))) == b
  {
    match b & 15
    case 0 => assert Eight(224) == RowE(0); case 1 => assert Eight(225) == RowE(1);
    case 2 => assert Eight(226) == RowE(2); case 3 => assert Eight(227) == RowE(3);
    case 4 => assert Eight(228) == RowE(4); case 5 => assert Eight(229) == RowE(5);
    case 6 => assert Eight(230) == RowE(6); case 7 => assert Eight(231) == RowE(7);
    case 8 => assert Eight(232) == RowE(8); case 9 => assert Eight(233) == RowE(9);
    case 10 => assert Eight(234) == RowE(10); case 11 => assert Eight(235) == RowE(11);
    case 12 => assert Eight(236) == RowE(12); case 13 => assert Eight(237) == RowE(13);
    case 14 => assert Eight(238) == RowE(14); case _ => assert Eight(239) == RowE(15);
  }

  lemma RowFIsEight(b: Octet)
    requires b >> 4 == 15
    ensures RowF(b & 15) == Eight(b as Word) && Back(Top(RowF(b & 15))) == b
  {
    match b & 15
    case 0 => assert Eight(240) == RowF(0); case 1 => assert Eight(241) == RowF(1);
    case 2 => assert Eight(242) == RowF(2); case 3 => assert Eight(243) == RowF(3);
    case 4 => assert Eight(244) == RowF(4); case 5 => assert Eight(245) == RowF(5);
    case 6 => assert Eight(246) == RowF(6); case 7 => assert Eight(247) == RowF(7);
    case 8 => assert Eight(248) == RowF(8); case 9 => assert Eight(249) == RowF(9);
    case 10 => assert Eight(250) == RowF(10); case 11 => assert Eight(251) == RowF(11);
    case 12 => assert Eight(252) == RowF(12); case 13 => assert Eight(253) == RowF(13);
    case 14 => assert Eight(254) == RowF(14); case _ => assert Eight(255) == RowF(15);
  }

  /** The table holds eight steps of the register for every byte. */
  lemma TableIsEight(b: Octet)
    ensures Table(b) == Eight(Wide(b)) && Back(Top(Table(b))) == b
  {
    match b >> 4
    case 0 => Row0IsEight(b);
    case 1 => Row1IsEight(b);
    case 2 => Row2IsEight(b);
    case 3 => Row3IsEight(b);
    case 4 => Row4IsEight(b);
    case 5 => Row5IsEight(b);
    case 6 => Row6IsEight(b);
    case 7 => Row7IsEight(b);
    case 8 => Row8IsEight(b);
    case 9 => Row9IsEight(b);
    case 10 => RowAIsEight(b);
    case 11 => RowBIsEight(b);
    case 12 => RowCIsEight(b);
    case 13 => RowDIsEight(b);
    case 14 => RowEIsEight(b);
    case _ => RowFIsEight(b);
  }

  // ----- one step -----------------------------------------------------------------------

  lemma EightOfSum(l: Word, h: Word)
    requires h < 0x100_0000_0000_0000
    ensures Eight(l ^ (h << 8)) == Eight(l) ^ h
  {}

  /** Eight steps move the bits above the low byte down without changing them. */
  lemma EightOfJoin(l: Word, h: Word)
    requires Small(h)
    ensures Eight(Join(l, h)) == Plus(Eight(l), h)
  {
    EightOfSum(l, h);
  }

  lemma EightOfHalves(x: Word)
    ensures Eight(x) == Plus(Eight(Low(x)), High(x)) && Small(High(x))
  {
    Halves(x);
    EightOfJoin(Low(x), High(x));
  }

  /** The body of the loop of crc64. */
  function TableStep(c: Word, b: Octet): Word {
    Plus(Table(Byte(c) ^ b), High(c))
  }

  /** Taking in a byte: it is added to the low byte of the register, which then makes eight
      steps. */
  function Step(c: Word, b: Octet): Word {
    Eight(Plus(c, Wide(b)))
  }

  lemma TableStepIsStep(c: Word, b: Octet)
    ensures TableStep(c, b) == Step(c, b)
  {
    HalvesOfSum(c, b, Byte(c) ^ b);
    TableIsEight(Byte(c) ^ b);
    EightOfHalves(Plus(c, Wide(b)));
  }

  /** crc64: the table-driven loop computes the bit-serial register. */
  method Crc64(init: Word, s: seq<Octet>) returns (crc: Word)
    ensures crc == Crc(Step, init, s)
  {
    crc := init;
    for j := 0 to |s|
      invariant Crc(Step, crc, s[j..]) == Crc(Step, init, s)
    {
      TableStepIsStep(crc, s[j]);
      assert s[j..][1..] == s[j + 1..];
      crc := TableStep(crc, s[j]);
    }
  }

  /** The top byte after eight steps tells the low byte before them. */
  lemma LowFromTop(x: Word)
    ensures Wide(Back(Top(Eight(x)))) == Low(x)
  {
    EightOfHalves(x);
    TopOfSum(Eight(Low(x)), High(x));
    ByteIsLow(x);
    TableIsEight(Byte(x));
  }

  /** Eight steps can be undone. */
  lemma EightInjective(x: Word, y: Word)
    requires Eight(x) == Eight(y)
    ensures x == y
  {
    LowFromTop(x);
    LowFromTop(y);
    EightOfHalves(x);
    EightOfHalves(y);
    PlusInjective(Eight(Low(x)), High(x), High(y));
    Halves(x);
    Halves(y);
  }

  lemma ShiftsCanBeUndone()
    ensures Injective(Eight)
  {
    forall x, y | Eight(x) == Eight(y) ensures x == y {
      EightInjective(x, y);
    }
  }

  lemma StepCanBeUndone()
    ensures StepInjective(Step)
  {
    forall c, d, b | Step(c, b) == Step(d, b) ensures c == d {
      EightInjective(Plus(c, Wide(b)), Plus(d, Wide(b)));
      PlusCommutes(c, Wide(b));
      PlusCommutes(d, Wide(b));
      PlusInjective(Wide(b), c, d);
    }
  }

  lemma EightOfZero()
    ensures Eight(0) == 0
  {}

  // ----- up to eight bytes at once -----------------------------------------------------------

  /** The register when all the bytes have been added before any step. */
  function Load(c: Word, s: seq<Octet>): Word {
    Plus(c, Little(s))
  }

  lemma LoadStep(c: Word, s: seq<Octet>)
    requires 0 < |s| <= 8
    ensures Eight(Load(c, s)) == Load(Step(c, s[0]), s[1..])
  {
    var b, w := s[0], Little(s[1..]);
    SmallLittle(s[1..]);
    PlusJoin(c, Wide(b), w);
    EightOfJoin(Plus(c, Wide(b)), w);
  }

  lemma LoadNothing(c: Word)
    ensures Load(c, []) == c
  {}

  lemma EightBytesLoad()
    ensures Loads(Step, Eight, Load, 8)
  {
    forall c ensures Load(c, []) == c {
      LoadNothing(c);
    }
    forall c, s: seq<Octet> | 0 < |s| <= 8 ensures Eight(Load(c, s)) == Load(Step(c, s[0]), s[1..]) {
      LoadStep(c, s);
    }
  }
}
