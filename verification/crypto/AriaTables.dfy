// The four substitution tables of the ARIA block cipher and the fact that they are
// inverse to each other in pairs.
module AriaTables {

  // The entry in the column that the low half of x names, of a row of sixteen entries.
  function Entry(row: bv128, x: bv8): bv8 {
    ((row >> (120 - ((x & 15) << 3))) & 0xff) as bv8
  }

  // S-box type 1, row by row: the high half of x names the row.
  function S1Row(h: bv8): bv128 {
    if h == 0 then 0x637c777b_f26b6fc5_3001672b_fed7ab76 else
    if h == 1 then 0xca82c97d_fa5947f0_add4a2af_9ca472c0 else
    if h == 2 then 0xb7fd9326_363ff7cc_34a5e5f1_71d83115 else
    if h == 3 then 0x04c723c3_1896059a_071280e2_eb27b275 else
    if h == 4 then 0x09832c1a_1b6e5aa0_523bd6b3_29e32f84 else
    if h == 5 then 0x53d100ed_20fcb15b_6acbbe39_4a4c58cf else
    if h == 6 then 0xd0efaafb_434d3385_45f9027f_503c9fa8 else
    if h == 7 then 0x51a3408f_929d38f5_bcb6da21_10fff3d2 else
    if h == 8 then 0xcd0c13ec_5f974417_c4a77e3d_645d1973 else
    if h == 9 then 0x60814fdc_222a9088_46eeb814_de5e0bdb else
    if h == 10 then 0xe0323a0a_4906245c_c2d3ac62_9195e479 else
    if h == 11 then 0xe7c8376d_8dd54ea9_6c56f4ea_657aae08 else
    if h == 12 then 0xba78252e_1ca6b4c6_e8dd741f_4bbd8b8a else
    if h == 13 then 0x703eb566_4803f60e_613557b9_86c11d9e else
    if h == 14 then 0xe1f89811_69d98e94_9b1e87e9_ce5528df else
    0x8ca1890d_bfe64268_41992d0f_b054bb16
  }

  function S1(x: bv8): bv8 { Entry(S1Row(x >> 4), x) }

  // S-box type 2, row by row: the high half of x names the row.
  function S2Row(h: bv8): bv128 {
    if h == 0 then 0xe24e54fc_94c24acc_620d6a46_3c4d8bd1 else
    if h == 1 then 0x5efa64cb_b497be2b_bc772e03_d31959c1 else
    if h == 2 then 0x1d06416b_55f09969_ea9c18ae_63dfe7bb else
    if h == 3 then 0x007366fb_964c85e4_3a0945aa_0fee10eb else
    if h == 4 then 0x2d7ff429_accfad91_8d78c895_f92fcecd else
    if h == 5 then 0x087a8838_5c832a28_47dbb8c7_93a41253 else
    if h == 6 then 0xff870e31_36215848_018e3774_32cae9b1 else
    if h == 7 then 0xb7ab0cd7_c4564226_079860d9_b6b91140 else
    if h == 8 then 0xec208cbd_a0c98404_4923f14f_501f13dc else
    if h == 9 then 0xd8c09e57_e3c37b65_3b028f3e_e82592e5 else
    if h == 10 then 0x15ddfd17_a9bfd49a_7ec53967_fe769d43 else
    if h == 11 then 0xa7e1d0f5_68f21b34_7005a38a_d57986a8 else
    if h == 12 then 0x30c6514b_1ea627f6_35d26e24_16825fda else
    if h == 13 then 0xe675a2ef_2cb21c9f_5d6f800a_72449b6c else
    if h == 14 then 0x900b5b33_7d5a52f3_61a1f7b0_d63f7c6d else
    0xed14e0a5_3d22b3f8_89de711a_afbab581
  }

  function S2(x: bv8): bv8 { Entry(S2Row(x >> 4), x) }

  // The inverse of S-box type 1, row by row: the high half of x names the row.
  function X1Row(h: bv8): bv128 {
    if h == 0 then 0x52096ad5_3036a538_bf40a39e_81f3d7fb else
    if h == 1 then 0x7ce33982_9b2fff87_348e4344_c4dee9cb else
    if h == 2 then 0x547b9432_a6c2233d_ee4c950b_42fac34e else
    if h == 3 then 0x082ea166_28d924b2_765ba249_6d8bd125 else
    if h == 4 then 0x72f8f664_86689816_d4a45ccc_5d65b692 else
    if h == 5 then 0x6c704850_fdedb9da_5e154657_a78d9d84 else
    if h == 6 then 0x90d8ab00_8cbcd30a_f7e45805_b8b34506 else
    if h == 7 then 0xd02c1e8f_ca3f0f02_c1afbd03_01138a6b else
    if h == 8 then 0x3a911141_4f67dcea_97f2cfce_f0b4e673 else
    if h == 9 then 0x96ac7422_e7ad3585_e2f937e8_1c75df6e else
    if h == 10 then 0x47f11a71_1d29c589_6fb7620e_aa18be1b else
    if h == 11 then 0xfc563e4b_c6d27920_9adbc0fe_78cd5af4 else
    if h == 12 then 0x1fdda833_8807c731_b1121059_2780ec5f else
    if h == 13 then 0x60517fa9_19b54a0d_2de57a9f_93c99cef else
    if h == 14 then 0xa0e03b4d_ae2af5b0_c8ebbb3c_83539961 else
    0x172b047e_ba77d626_e1691463_55210c7d
  }

  function X1(x: bv8): bv8 { Entry(X1Row(x >> 4), x) }

  // The inverse of S-box type 2, row by row: the high half of x names the row.
  function X2Row(h: bv8): bv128 {
    if h == 0 then 0x3068991b_87b92178_5039dbe1_7209623c else
    if h == 1 then 0x3e7e5e8e_f1a0cca3_2a1dfbb6_d620c48d else
    if h == 2 then 0x8165f589_cb9d77c6_57435617_d4401a4d else
    if h == 3 then 0xc0636ce3_b7c8646a_53aa3898_0cf49bed else
    if h == 4 then 0x7f2276af_dd3a0b58_678806c3_350d018b else
    if h == 5 then 0x8cc2e65f_02247593_661ee5e2_54d810ce else
    if h == 6 then 0x7ae8082c_129732ab_b4270a23_dfefcad9 else
    if h == 7 then 0xb8fadc31_6bd1ad19_49bd5196_eee4a841 else
    if h == 8 then 0xdaffcd55_8636be61_52f8bb0e_8248699a else
    if h == 9 then 0xe0479e5c_044b3415_7926a7de_29ae92d7 else
    if h == 10 then 0x84e9d2ba_5df3c5b0_bfa43b71_44462bfc else
    if h == 11 then 0xeb6fd5f6_14fe7c70_5a7dfd2f_188316a5 else
    if h == 12 then 0x911f0595_74a9c15b_4a856d13_074f4e45 else
    if h == 13 then 0xb20fc91c_a6bcec73_907bcf59_8fa1f92d else
    if h == 14 then 0xf2b10094_379fd02e_9c6e283f_80f03dd3 else
    0x258ab5e7_42b3c7ea_f74c1133_03a2ac60
  }

  function X2(x: bv8): bv8 { Entry(X2Row(x >> 4), x) }

  lemma X1AfterS1Quarter0(x: bv8) requires x < 64 ensures X1(S1(x)) == x {}
  lemma X1AfterS1Quarter1(x: bv8) requires 64 <= x < 128 ensures X1(S1(x)) == x {}
  lemma X1AfterS1Quarter2(x: bv8) requires 128 <= x < 192 ensures X1(S1(x)) == x {}
  lemma X1AfterS1Quarter3(x: bv8) requires x >= 192 ensures X1(S1(x)) == x {}
  lemma S1AfterX1Quarter0(x: bv8) requires x < 64 ensures S1(X1(x)) == x {}
  lemma S1AfterX1Quarter1(x: bv8) requires 64 <= x < 128 ensures S1(X1(x)) == x {}
  lemma S1AfterX1Quarter2(x: bv8) requires 128 <= x < 192 ensures S1(X1(x)) == x {}
  lemma S1AfterX1Quarter3(x: bv8) requires x >= 192 ensures S1(X1(x)) == x {}
  lemma X2AfterS2Quarter0(x: bv8) requires x < 64 ensures X2(S2(x)) == x {}
  lemma X2AfterS2Quarter1(x: bv8) requires 64 <= x < 128 ensures X2(S2(x)) == x {}
  lemma X2AfterS2Quarter2(x: bv8) requires 128 <= x < 192 ensures X2(S2(x)) == x {}
  lemma X2AfterS2Quarter3(x: bv8) requires x >= 192 ensures X2(S2(x)) == x {}
  lemma S2AfterX2Quarter0(x: bv8) requires x < 64 ensures S2(X2(x)) == x {}
  lemma S2AfterX2Quarter1(x: bv8) requires 64 <= x < 128 ensures S2(X2(x)) == x {}
  lemma S2AfterX2Quarter2(x: bv8) requires 128 <= x < 192 ensures S2(X2(x)) == x {}
  lemma S2AfterX2Quarter3(x: bv8) requires x >= 192 ensures S2(X2(x)) == x {}

  // S[k][x], the table lookup of the reference code.
  function S(k: nat, x: bv8): bv8
    requires k < 4
  {
    match k
    case 0 => S1(x)
    case 1 => S2(x)
    case 2 => X1(x)
    case _ => X2(x)
  }

  lemma X1AfterS1(x: bv8)
    ensures X1(S1(x)) == x
  {
    hide X1; hide S1;
    if x < 64 { X1AfterS1Quarter0(x); }
    else if x < 128 { X1AfterS1Quarter1(x); }
    else if x < 192 { X1AfterS1Quarter2(x); }
    else { X1AfterS1Quarter3(x); }
  }

  lemma S1AfterX1(x: bv8)
    ensures S1(X1(x)) == x
  {
    hide S1; hide X1;
    if x < 64 { S1AfterX1Quarter0(x); }
    else if x < 128 { S1AfterX1Quarter1(x); }
    else if x < 192 { S1AfterX1Quarter2(x); }
    else { S1AfterX1Quarter3(x); }
  }

  lemma X2AfterS2(x: bv8)
    ensures X2(S2(x)) == x
  {
    hide X2; hide S2;
    if x < 64 { X2AfterS2Quarter0(x); }
    else if x < 128 { X2AfterS2Quarter1(x); }
    else if x < 192 { X2AfterS2Quarter2(x); }
    else { X2AfterS2Quarter3(x); }
  }

  lemma S2AfterX2(x: bv8)
    ensures S2(X2(x)) == x
  {
    hide S2; hide X2;
    if x < 64 { S2AfterX2Quarter0(x); }
    else if x < 128 { S2AfterX2Quarter1(x); }
    else if x < 192 { S2AfterX2Quarter2(x); }
    else { S2AfterX2Quarter3(x); }
  }

  // Tables two apart undo each other, in both directions and for every byte.
  lemma TablesInverse(k: nat, x: bv8)
    requires k < 4
    ensures S((k + 2) % 4, S(k, x)) == x
  {
    hide S1; hide S2; hide X1; hide X2;
    match k
    case 0 => X1AfterS1(x);
    case 1 => X2AfterS2(x);
    case 2 => S1AfterX1(x);
    case 3 => S2AfterX2(x);
  }
}
