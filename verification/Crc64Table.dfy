/** The 256-entry lookup table of src/crc64.c, in rows of sixteen, and the proof that every entry
    is eight steps of the bitwise division. */
module Crc64Table {

  import opened Bytes
  import opened Crc64Steps

  const ROW_0: seq<bv64> := [
    0x0000_0000_0000_0000, 0x7ad8_70c8_3035_8979, 0xf5b0_e190_606b_12f2, 0x8f68_9158_505e_9b8b,
    0xc038_e573_9841_b68f, 0xbae0_95bb_a874_3ff6, 0x3588_04e3_f82a_a47d, 0x4f50_742b_c81f_2d04,
    0xab28_ecb4_6814_fe75, 0xd1f0_9c7c_5821_770c, 0x5e98_0d24_087f_ec87, 0x2440_7dec_384a_65fe,
    0x6b10_09c7_f055_48fa, 0x11c8_790f_c060_c183, 0x9ea0_e857_903e_5a08, 0xe478_989f_a00b_d371
  ]

  const ROW_1: seq<bv64> := [
    0x7d08_ff3b_88be_6f81, 0x07d0_8ff3_b88b_e6f8, 0x88b8_1eab_e8d5_7d73, 0xf260_6e63_d8e0_f40a,
    0xbd30_1a48_10ff_d90e, 0xc7e8_6a80_20ca_5077, 0x4880_fbd8_7094_cbfc, 0x3258_8b10_40a1_4285,
    0xd620_138f_e0aa_91f4, 0xacf8_6347_d09f_188d, 0x2390_f21f_80c1_8306, 0x5948_82d7_b0f4_0a7f,
    0x1618_f6fc_78eb_277b, 0x6cc0_8634_48de_ae02, 0xe3a8_176c_1880_3589, 0x9970_67a4_28b5_bcf0
  ]

  const ROW_2: seq<bv64> := [
    0xfa11_fe77_117c_df02, 0x80c9_8ebf_2149_567b, 0x0fa1_1fe7_7117_cdf0, 0x7579_6f2f_4122_4489,
    0x3a29_1b04_893d_698d, 0x40f1_6bcc_b908_e0f4, 0xcf99_fa94_e956_7b7f, 0xb541_8a5c_d963_f206,
    0x5139_12c3_7968_2177, 0x2be1_620b_495d_a80e, 0xa489_f353_1903_3385, 0xde51_839b_2936_bafc,
    0x9101_f7b0_e129_97f8, 0xebd9_8778_d11c_1e81, 0x64b1_1620_8142_850a, 0x1e69_66e8_b177_0c73
  ]

  const ROW_3: seq<bv64> := [
    0x8719_014c_99c2_b083, 0xfdc1_7184_a9f7_39fa, 0x72a9_e0dc_f9a9_a271, 0x0871_9014_c99c_2b08,
    0x4721_e43f_0183_060c, 0x3df9_94f7_31b6_8f75, 0xb291_05af_61e8_14fe, 0xc849_7567_51dd_9d87,
    0x2c31_edf8_f1d6_4ef6, 0x56e9_9d30_c1e3_c78f, 0xd981_0c68_91bd_5c04, 0xa359_7ca0_a188_d57d,
    0xec09_088b_6997_f879, 0x96d1_7843_59a2_7100, 0x19b9_e91b_09fc_ea8b, 0x6361_99d3_39c9_63f2
  ]

  const ROW_4: seq<bv64> := [
    0xdf7a_dabd_7a6e_2d6f, 0xa5a2_aa75_4a5b_a416, 0x2aca_3b2d_1a05_3f9d, 0x5012_4be5_2a30_b6e4,
    0x1f42_3fce_e22f_9be0, 0x659a_4f06_d21a_1299, 0xeaf2_de5e_8244_8912, 0x902a_ae96_b271_006b,
    0x7452_3609_127a_d31a, 0x0e8a_46c1_224f_5a63, 0x81e2_d799_7211_c1e8, 0xfb3a_a751_4224_4891,
    0xb46a_d37a_8a3b_6595, 0xceb2_a3b2_ba0e_ecec, 0x41da_32ea_ea50_7767, 0x3b02_4222_da65_fe1e
  ]

  const ROW_5: seq<bv64> := [
    0xa272_2586_f2d0_42ee, 0xd8aa_554e_c2e5_cb97, 0x57c2_c416_92bb_501c, 0x2d1a_b4de_a28e_d965,
    0x624a_c0f5_6a91_f461, 0x1892_b03d_5aa4_7d18, 0x97fa_2165_0afa_e693, 0xed22_51ad_3acf_6fea,
    0x095a_c932_9ac4_bc9b, 0x7382_b9fa_aaf1_35e2, 0xfcea_28a2_faaf_ae69, 0x8632_586a_ca9a_2710,
    0xc962_2c41_0285_0a14, 0xb3ba_5c89_32b0_836d, 0x3cd2_cdd1_62ee_18e6, 0x460a_bd19_52db_919f
  ]

  const ROW_6: seq<bv64> := [
    0x256b_24ca_6b12_f26d, 0x5fb3_5402_5b27_7b14, 0xd0db_c55a_0b79_e09f, 0xaa03_b592_3b4c_69e6,
    0xe553_c1b9_f353_44e2, 0x9f8b_b171_c366_cd9b, 0x10e3_2029_9338_5610, 0x6a3b_50e1_a30d_df69,
    0x8e43_c87e_0306_0c18, 0xf49b_b8b6_3333_8561, 0x7bf3_29ee_636d_1eea, 0x012b_5926_5358_9793,
    0x4e7b_2d0d_9b47_ba97, 0x34a3_5dc5_ab72_33ee, 0xbbcb_cc9d_fb2c_a865, 0xc113_bc55_cb19_211c
  ]

  const ROW_7: seq<bv64> := [
    0x5863_dbf1_e3ac_9dec, 0x22bb_ab39_d399_1495, 0xadd3_3a61_83c7_8f1e, 0xd70b_4aa9_b3f2_0667,
    0x985b_3e82_7bed_2b63, 0xe283_4e4a_4bd8_a21a, 0x6deb_df12_1b86_3991, 0x1733_afda_2bb3_b0e8,
    0xf34b_3745_8bb8_6399, 0x8993_478d_bb8d_eae0, 0x06fb_d6d5_ebd3_716b, 0x7c23_a61d_dbe6_f812,
    0x3373_d236_13f9_d516, 0x49ab_a2fe_23cc_5c6f, 0xc6c3_33a6_7392_c7e4, 0xbc1b_436e_43a7_4e9d
  ]

  const ROW_8: seq<bv64> := [
    0x95ac_9329_ac4b_c9b5, 0xef74_e3e1_9c7e_40cc, 0x601c_72b9_cc20_db47, 0x1ac4_0271_fc15_523e,
    0x5594_765a_340a_7f3a, 0x2f4c_0692_043f_f643, 0xa024_97ca_5461_6dc8, 0xdafc_e702_6454_e4b1,
    0x3e84_7f9d_c45f_37c0, 0x445c_0f55_f46a_beb9, 0xcb34_9e0d_a434_2532, 0xb1ec_eec5_9401_ac4b,
    0xfebc_9aee_5c1e_814f, 0x8464_ea26_6c2b_0836, 0x0b0c_7b7e_3c75_93bd, 0x71d4_0bb6_0c40_1ac4
  ]

  const ROW_9: seq<bv64> := [
    0xe8a4_6c12_24f5_a634, 0x927c_1cda_14c0_2f4d, 0x1d14_8d82_449e_b4c6, 0x67cc_fd4a_74ab_3dbf,
    0x289c_8961_bcb4_10bb, 0x5244_f9a9_8c81_99c2, 0xdd2c_68f1_dcdf_0249, 0xa7f4_1839_ecea_8b30,
    0x438c_80a6_4ce1_5841, 0x3954_f06e_7cd4_d138, 0xb63c_6136_2c8a_4ab3, 0xcce4_11fe_1cbf_c3ca,
    0x83b4_65d5_d4a0_eece, 0xf96c_151d_e495_67b7, 0x7604_8445_b4cb_fc3c, 0x0cdc_f48d_84fe_7545
  ]

  const ROW_A: seq<bv64> := [
    0x6fbd_6d5e_bd37_16b7, 0x1565_1d96_8d02_9fce, 0x9a0d_8cce_dd5c_0445, 0xe0d5_fc06_ed69_8d3c,
    0xaf85_882d_2576_a038, 0xd55d_f8e5_1543_2941, 0x5a35_69bd_451d_b2ca, 0x20ed_1975_7528_3bb3,
    0xc495_81ea_d523_e8c2, 0xbe4d_f122_e516_61bb, 0x3125_607a_b548_fa30, 0x4bfd_10b2_857d_7349,
    0x04ad_6499_4d62_5e4d, 0x7e75_1451_7d57_d734, 0xf11d_8509_2d09_4cbf, 0x8bc5_f5c1_1d3c_c5c6
  ]

  const ROW_B: seq<bv64> := [
    0x12b5_9265_3589_7936, 0x686d_e2ad_05bc_f04f, 0xe705_73f5_55e2_6bc4, 0x9ddd_033d_65d7_e2bd,
    0xd28d_7716_adc8_cfb9, 0xa855_07de_9dfd_46c0, 0x273d_9686_cda3_dd4b, 0x5de5_e64e_fd96_5432,
    0xb99d_7ed1_5d9d_8743, 0xc345_0e19_6da8_0e3a, 0x4c2d_9f41_3df6_95b1, 0x36f5_ef89_0dc3_1cc8,
    0x79a5_9ba2_c5dc_31cc, 0x037d_eb6a_f5e9_b8b5, 0x8c15_7a32_a5b7_233e, 0xf6cd_0afa_9582_aa47
  ]

  const ROW_C: seq<bv64> := [
    0x4ad6_4994_d625_e4da, 0x300e_395c_e610_6da3, 0xbf66_a804_b64e_f628, 0xc5be_d8cc_867b_7f51,
    0x8aee_ace7_4e64_5255, 0xf036_dc2f_7e51_db2c, 0x7f5e_4d77_2e0f_40a7, 0x0586_3dbf_1e3a_c9de,
    0xe1fe_a520_be31_1aaf, 0x9b26_d5e8_8e04_93d6, 0x144e_44b0_de5a_085d, 0x6e96_3478_ee6f_8124,
    0x21c6_4053_2670_ac20, 0x5b1e_309b_1645_2559, 0xd476_a1c3_461b_bed2, 0xaeae_d10b_762e_37ab
  ]

  const ROW_D: seq<bv64> := [
    0x37de_b6af_5e9b_8b5b, 0x4d06_c667_6eae_0222, 0xc26e_573f_3ef0_99a9, 0xb8b6_27f7_0ec5_10d0,
    0xf7e6_53dc_c6da_3dd4, 0x8d3e_2314_f6ef_b4ad, 0x0256_b24c_a6b1_2f26, 0x788e_c284_9684_a65f,
    0x9cf6_5a1b_368f_752e, 0xe62e_2ad3_06ba_fc57, 0x6946_bb8b_56e4_67dc, 0x139e_cb43_66d1_eea5,
    0x5cce_bf68_aece_c3a1, 0x2616_cfa0_9efb_4ad8, 0xa97e_5ef8_cea5_d153, 0xd3a6_2e30_fe90_582a
  ]

  const ROW_E: seq<bv64> := [
    0xb0c7_b7e3_c759_3bd8, 0xca1f_c72b_f76c_b2a1, 0x4577_5673_a732_292a, 0x3faf_26bb_9707_a053,
    0x70ff_5290_5f18_8d57, 0x0a27_2258_6f2d_042e, 0x854f_b300_3f73_9fa5, 0xff97_c3c8_0f46_16dc,
    0x1bef_5b57_af4d_c5ad, 0x6137_2b9f_9f78_4cd4, 0xee5f_bac7_cf26_d75f, 0x9487_ca0f_ff13_5e26,
    0xdbd7_be24_370c_7322, 0xa10f_ceec_0739_fa5b, 0x2e67_5fb4_5767_61d0, 0x54bf_2f7c_6752_e8a9
  ]

  const ROW_F: seq<bv64> := [
    0xcdcf_48d8_4fe7_5459, 0xb717_3810_7fd2_dd20, 0x387f_a948_2f8c_46ab, 0x42a7_d980_1fb9_cfd2,
    0x0df7_adab_d7a6_e2d6, 0x772f_dd63_e793_6baf, 0xf847_4c3b_b7cd_f024, 0x829f_3cf3_87f8_795d,
    0x66e7_a46c_27f3_aa2c, 0x1c3f_d4a4_17c6_2355, 0x9357_45fc_4798_b8de, 0xe98f_3534_77ad_31a7,
    0xa6df_411f_bfb2_1ca3, 0xdc07_31d7_8f87_95da, 0x536f_a08f_dfd9_0e51, 0x29b7_d047_efec_8728
  ]

  const ROWS: seq<seq<bv64>> := [
    ROW_0, ROW_1, ROW_2, ROW_3, ROW_4, ROW_5, ROW_6, ROW_7,
    ROW_8, ROW_9, ROW_A, ROW_B, ROW_C, ROW_D, ROW_E, ROW_F
  ]

  /** `crc64_tab[i]` */
  function Entry(i: byte): (v: bv64) {
    ROWS[(i >> 4) as nat][(i & 0xF) as nat]
  }

  /** Every entry of the table is the remainder of its own index. */
  lemma EntryIsByteStep(i: byte)
    ensures Entry(i) == ByteStep(i as bv64)
  {
    match (i >> 4) as nat {
      case 0 => Row0(i);
      case 1 => Row1(i);
      case 2 => Row2(i);
      case 3 => Row3(i);
      case 4 => Row4(i);
      case 5 => Row5(i);
      case 6 => Row6(i);
      case 7 => Row7(i);
      case 8 => Row8(i);
      case 9 => Row9(i);
      case 10 => RowA(i);
      case 11 => RowB(i);
      case 12 => RowC(i);
      case 13 => RowD(i);
      case 14 => RowE(i);
      case 15 => RowF(i);
    }
  }

  lemma Row0(i: byte)
    requires i >> 4 == 0
    ensures Entry(i) == ByteStep(i as bv64)
  {
    if i == 0x00 {} else if i == 0x01 {} else if i == 0x02 {} else if i == 0x03 {
    } else if i == 0x04 {} else if i == 0x05 {} else if i == 0x06 {} else if i == 0x07 {
    } else if i == 0x08 {} else if i == 0x09 {} else if i == 0x0a {} else if i == 0x0b {
    } else if i == 0x0c {} else if i == 0x0d {} else if i == 0x0e {} else if i == 0x0f {
    }
  }

  lemma Row1(i: byte)
    requires i >> 4 == 1
    ensures Entry(i) == ByteStep(i as bv64)
  {
    if i == 0x10 {} else if i == 0x11 {} else if i == 0x12 {} else if i == 0x13 {
    } else if i == 0x14 {} else if i == 0x15 {} else if i == 0x16 {} else if i == 0x17 {
    } else if i == 0x18 {} else if i == 0x19 {} else if i == 0x1a {} else if i == 0x1b {
    } else if i == 0x1c {} else if i == 0x1d {} else if i == 0x1e {} else if i == 0x1f {
    }
  }

  lemma Row2(i: byte)
    requires i >> 4 == 2
    ensures Entry(i) == ByteStep(i as bv64)
  {
    if i == 0x20 {} else if i == 0x21 {} else if i == 0x22 {} else if i == 0x23 {
    } else if i == 0x24 {} else if i == 0x25 {} else if i == 0x26 {} else if i == 0x27 {
    } else if i == 0x28 {} else if i == 0x29 {} else if i == 0x2a {} else if i == 0x2b {
    } else if i == 0x2c {} else if i == 0x2d {} else if i == 0x2e {} else if i == 0x2f {
    }
  }

  lemma Row3(i: byte)
    requires i >> 4 == 3
    ensures Entry(i) == ByteStep(i as bv64)
  {
    if i == 0x30 {} else if i == 0x31 {} else if i == 0x32 {} else if i == 0x33 {
    } else if i == 0x34 {} else if i == 0x35 {} else if i == 0x36 {} else if i == 0x37 {
    } else if i == 0x38 {} else if i == 0x39 {} else if i == 0x3a {} else if i == 0x3b {
    } else if i == 0x3c {} else if i == 0x3d {} else if i == 0x3e {} else if i == 0x3f {
    }
  }

  lemma Row4(i: byte)
    requires i >> 4 == 4
    ensures Entry(i) == ByteStep(i as bv64)
  {
    if i == 0x40 {} else if i == 0x41 {} else if i == 0x42 {} else if i == 0x43 {
    } else if i == 0x44 {} else if i == 0x45 {} else if i == 0x46 {} else if i == 0x47 {
    } else if i == 0x48 {} else if i == 0x49 {} else if i == 0x4a {} else if i == 0x4b {
    } else if i == 0x4c {} else if i == 0x4d {} else if i == 0x4e {} else if i == 0x4f {
    }
  }

  lemma Row5(i: byte)
    requires i >> 4 == 5
    ensures Entry(i) == ByteStep(i as bv64)
  {
    if i == 0x50 {} else if i == 0x51 {} else if i == 0x52 {} else if i == 0x53 {
    } else if i == 0x54 {} else if i == 0x55 {} else if i == 0x56 {} else if i == 0x57 {
    } else if i == 0x58 {} else if i == 0x59 {} else if i == 0x5a {} else if i == 0x5b {
    } else if i == 0x5c {} else if i == 0x5d {} else if i == 0x5e {} else if i == 0x5f {
    }
  }

  lemma Row6(i: byte)
    requires i >> 4 == 6
    ensures Entry(i) == ByteStep(i as bv64)
  {
    if i == 0x60 {} else if i == 0x61 {} else if i == 0x62 {} else if i == 0x63 {
    } else if i == 0x64 {} else if i == 0x65 {} else if i == 0x66 {} else if i == 0x67 {
    } else if i == 0x68 {} else if i == 0x69 {} else if i == 0x6a {} else if i == 0x6b {
    } else if i == 0x6c {} else if i == 0x6d {} else if i == 0x6e {} else if i == 0x6f {
    }
  }

  lemma Row7(i: byte)
    requires i >> 4 == 7
    ensures Entry(i) == ByteStep(i as bv64)
  {
    if i == 0x70 {} else if i == 0x71 {} else if i == 0x72 {} else if i == 0x73 {
    } else if i == 0x74 {} else if i == 0x75 {} else if i == 0x76 {} else if i == 0x77 {
    } else if i == 0x78 {} else if i == 0x79 {} else if i == 0x7a {} else if i == 0x7b {
    } else if i == 0x7c {} else if i == 0x7d {} else if i == 0x7e {} else if i == 0x7f {
    }
  }

  lemma Row8(i: byte)
    requires i >> 4 == 8
    ensures Entry(i) == ByteStep(i as bv64)
  {
    if i == 0x80 {} else if i == 0x81 {} else if i == 0x82 {} else if i == 0x83 {
    } else if i == 0x84 {} else if i == 0x85 {} else if i == 0x86 {} else if i == 0x87 {
    } else if i == 0x88 {} else if i == 0x89 {} else if i == 0x8a {} else if i == 0x8b {
    } else if i == 0x8c {} else if i == 0x8d {} else if i == 0x8e {} else if i == 0x8f {
    }
  }

  lemma Row9(i: byte)
    requires i >> 4 == 9
    ensures Entry(i) == ByteStep(i as bv64)
  {
    if i == 0x90 {} else if i == 0x91 {} else if i == 0x92 {} else if i == 0x93 {
    } else if i == 0x94 {} else if i == 0x95 {} else if i == 0x96 {} else if i == 0x97 {
    } else if i == 0x98 {} else if i == 0x99 {} else if i == 0x9a {} else if i == 0x9b {
    } else if i == 0x9c {} else if i == 0x9d {} else if i == 0x9e {} else if i == 0x9f {
    }
  }

  lemma RowA(i: byte)
    requires i >> 4 == 10
    ensures Entry(i) == ByteStep(i as bv64)
  {
    if i == 0xa0 {} else if i == 0xa1 {} else if i == 0xa2 {} else if i == 0xa3 {
    } else if i == 0xa4 {} else if i == 0xa5 {} else if i == 0xa6 {} else if i == 0xa7 {
    } else if i == 0xa8 {} else if i == 0xa9 {} else if i == 0xaa {} else if i == 0xab {
    } else if i == 0xac {} else if i == 0xad {} else if i == 0xae {} else if i == 0xaf {
    }
  }

  lemma RowB(i: byte)
    requires i >> 4 == 11
    ensures Entry(i) == ByteStep(i as bv64)
  {
    if i == 0xb0 {} else if i == 0xb1 {} else if i == 0xb2 {} else if i == 0xb3 {
    } else if i == 0xb4 {} else if i == 0xb5 {} else if i == 0xb6 {} else if i == 0xb7 {
    } else if i == 0xb8 {} else if i == 0xb9 {} else if i == 0xba {} else if i == 0xbb {
    } else if i == 0xbc {} else if i == 0xbd {} else if i == 0xbe {} else if i == 0xbf {
    }
  }

  lemma RowC(i: byte)
    requires i >> 4 == 12
    ensures Entry(i) == ByteStep(i as bv64)
  {
    if i == 0xc0 {} else if i == 0xc1 {} else if i == 0xc2 {} else if i == 0xc3 {
    } else if i == 0xc4 {} else if i == 0xc5 {} else if i == 0xc6 {} else if i == 0xc7 {
    } else if i == 0xc8 {} else if i == 0xc9 {} else if i == 0xca {} else if i == 0xcb {
    } else if i == 0xcc {} else if i == 0xcd {} else if i == 0xce {} else if i == 0xcf {
    }
  }

  lemma RowD(i: byte)
    requires i >> 4 == 13
    ensures Entry(i) == ByteStep(i as bv64)
  {
    if i == 0xd0 {} else if i == 0xd1 {} else if i == 0xd2 {} else if i == 0xd3 {
    } else if i == 0xd4 {} else if i == 0xd5 {} else if i == 0xd6 {} else if i == 0xd7 {
    } else if i == 0xd8 {} else if i == 0xd9 {} else if i == 0xda {} else if i == 0xdb {
    } else if i == 0xdc {} else if i == 0xdd {} else if i == 0xde {} else if i == 0xdf {
    }
  }

  lemma RowE(i: byte)
    requires i >> 4 == 14
    ensures Entry(i) == ByteStep(i as bv64)
  {
    if i == 0xe0 {} else if i == 0xe1 {} else if i == 0xe2 {} else if i == 0xe3 {
    } else if i == 0xe4 {} else if i == 0xe5 {} else if i == 0xe6 {} else if i == 0xe7 {
    } else if i == 0xe8 {} else if i == 0xe9 {} else if i == 0xea {} else if i == 0xeb {
    } else if i == 0xec {} else if i == 0xed {} else if i == 0xee {} else if i == 0xef {
    }
  }

  lemma RowF(i: byte)
    requires i >> 4 == 15
    ensures Entry(i) == ByteStep(i as bv64)
  {
    if i == 0xf0 {} else if i == 0xf1 {} else if i == 0xf2 {} else if i == 0xf3 {
    } else if i == 0xf4 {} else if i == 0xf5 {} else if i == 0xf6 {} else if i == 0xf7 {
    } else if i == 0xf8 {} else if i == 0xf9 {} else if i == 0xfa {} else if i == 0xfb {
    } else if i == 0xfc {} else if i == 0xfd {} else if i == 0xfe {} else if i == 0xff {
    }
  }
}
