/**
 The substitution table of crypto/tiny_aes.c is the one that section 5.1.1 of FIPS 197 constructs:
 the affine map of the inverse in GF(2^8), for all 256 bytes.
 */
module AesSbox {
  import opened AesTables
  import opened AesField
  import opened ByteBits

  // Multiplication in the field (section 4.2): the source's Multiply covers factors of five bits.
  function Times(x: bv8, y: bv8): bv8 {
    Multiply(x, y & 0x1f) ^ Multiply(XTime(XTime(XTime(XTime(XTime(x))))), y >> 5)
  }

  function Rot(y: bv8, n: nat): bv8
    requires 0 < n < 8
  {
    (y << n) | (y >> (8 - n))
  }

  function Affine(y: bv8): bv8 {
    y ^ Rot(y, 1) ^ Rot(y, 2) ^ Rot(y, 3) ^ Rot(y, 4) ^ 0x63
  }

  function Unaffine(s: bv8): bv8 {
    Rot(s, 1) ^ Rot(s, 3) ^ Rot(s, 6) ^ 0x05
  }

  // y is the inverse of x in the field, or both are zero.
  predicate Inverses(x: bv8, y: bv8) {
    if x == 0 then y == 0 else Times(x, y) == 1
  }

  predicate Constructed(x: bv8, s: bv8) {
    Affine(Unaffine(s)) == s && Inverses(x, Unaffine(s))
  }

  predicate Entry(n: byte, v: byte) {
    Constructed(n as bv8, v as bv8)
  }

  lemma Entries0()
    ensures Entry(0x00, 0x63) && Entry(0x01, 0x7c) && Entry(0x02, 0x77) && Entry(0x03, 0x7b)
    ensures Entry(0x04, 0xf2) && Entry(0x05, 0x6b) && Entry(0x06, 0x6f) && Entry(0x07, 0xc5)
    ensures Entry(0x08, 0x30) && Entry(0x09, 0x01) && Entry(0x0a, 0x67) && Entry(0x0b, 0x2b)
    ensures Entry(0x0c, 0xfe) && Entry(0x0d, 0xd7) && Entry(0x0e, 0xab) && Entry(0x0f, 0x76)
  {
  }

  lemma InRow0(c: nat)
    requires c < 16
    ensures Entry(0 + c, SboxRow(0)[c])
  {
    Entries0();
    hide Entry;
    var t := SboxRow(0);
    assert c == 0 || c == 1 || c == 2 || c == 3 || c == 4 || c == 5 || c == 6 || c == 7
      || c == 8 || c == 9 || c == 10 || c == 11 || c == 12 || c == 13 || c == 14 || c == 15;
  }

  lemma Entries1()
    ensures Entry(0x10, 0xca) && Entry(0x11, 0x82) && Entry(0x12, 0xc9) && Entry(0x13, 0x7d)
    ensures Entry(0x14, 0xfa) && Entry(0x15, 0x59) && Entry(0x16, 0x47) && Entry(0x17, 0xf0)
    ensures Entry(0x18, 0xad) && Entry(0x19, 0xd4) && Entry(0x1a, 0xa2) && Entry(0x1b, 0xaf)
    ensures Entry(0x1c, 0x9c) && Entry(0x1d, 0xa4) && Entry(0x1e, 0x72) && Entry(0x1f, 0xc0)
  {
  }

  lemma InRow1(c: nat)
    requires c < 16
    ensures Entry(16 + c, SboxRow(1)[c])
  {
    Entries1();
    hide Entry;
    var t := SboxRow(1);
    assert c == 0 || c == 1 || c == 2 || c == 3 || c == 4 || c == 5 || c == 6 || c == 7
      || c == 8 || c == 9 || c == 10 || c == 11 || c == 12 || c == 13 || c == 14 || c == 15;
  }

  lemma Entries2()
    ensures Entry(0x20, 0xb7) && Entry(0x21, 0xfd) && Entry(0x22, 0x93) && Entry(0x23, 0x26)
    ensures Entry(0x24, 0x36) && Entry(0x25, 0x3f) && Entry(0x26, 0xf7) && Entry(0x27, 0xcc)
    ensures Entry(0x28, 0x34) && Entry(0x29, 0xa5) && Entry(0x2a, 0xe5) && Entry(0x2b, 0xf1)
    ensures Entry(0x2c, 0x71) && Entry(0x2d, 0xd8) && Entry(0x2e, 0x31) && Entry(0x2f, 0x15)
  {
  }

  lemma InRow2(c: nat)
    requires c < 16
    ensures Entry(32 + c, SboxRow(2)[c])
  {
    Entries2();
    hide Entry;
    var t := SboxRow(2);
    assert c == 0 || c == 1 || c == 2 || c == 3 || c == 4 || c == 5 || c == 6 || c == 7
      || c == 8 || c == 9 || c == 10 || c == 11 || c == 12 || c == 13 || c == 14 || c == 15;
  }

  lemma Entries3()
    ensures Entry(0x30, 0x04) && Entry(0x31, 0xc7) && Entry(0x32, 0x23) && Entry(0x33, 0xc3)
    ensures Entry(0x34, 0x18) && Entry(0x35, 0x96) && Entry(0x36, 0x05) && Entry(0x37, 0x9a)
    ensures Entry(0x38, 0x07) && Entry(0x39, 0x12) && Entry(0x3a, 0x80) && Entry(0x3b, 0xe2)
    ensures Entry(0x3c, 0xeb) && Entry(0x3d, 0x27) && Entry(0x3e, 0xb2) && Entry(0x3f, 0x75)
  {
  }

  lemma InRow3(c: nat)
    requires c < 16
    ensures Entry(48 + c, SboxRow(3)[c])
  {
    Entries3();
    hide Entry;
    var t := SboxRow(3);
    assert c == 0 || c == 1 || c == 2 || c == 3 || c == 4 || c == 5 || c == 6 || c == 7
      || c == 8 || c == 9 || c == 10 || c == 11 || c == 12 || c == 13 || c == 14 || c == 15;
  }

  lemma Entries4()
    ensures Entry(0x40, 0x09) && Entry(0x41, 0x83) && Entry(0x42, 0x2c) && Entry(0x43, 0x1a)
    ensures Entry(0x44, 0x1b) && Entry(0x45, 0x6e) && Entry(0x46, 0x5a) && Entry(0x47, 0xa0)
    ensures Entry(0x48, 0x52) && Entry(0x49, 0x3b) && Entry(0x4a, 0xd6) && Entry(0x4b, 0xb3)
    ensures Entry(0x4c, 0x29) && Entry(0x4d, 0xe3) && Entry(0x4e, 0x2f) && Entry(0x4f, 0x84)
  {
  }

  lemma InRow4(c: nat)
    requires c < 16
    ensures Entry(64 + c, SboxRow(4)[c])
  {
    Entries4();
    hide Entry;
    var t := SboxRow(4);
    assert c == 0 || c == 1 || c == 2 || c == 3 || c == 4 || c == 5 || c == 6 || c == 7
      || c == 8 || c == 9 || c == 10 || c == 11 || c == 12 || c == 13 || c == 14 || c == 15;
  }

  lemma Entries5()
    ensures Entry(0x50, 0x53) && Entry(0x51, 0xd1) && Entry(0x52, 0x00) && Entry(0x53, 0xed)
    ensures Entry(0x54, 0x20) && Entry(0x55, 0xfc) && Entry(0x56, 0xb1) && Entry(0x57, 0x5b)
    ensures Entry(0x58, 0x6a) && Entry(0x59, 0xcb) && Entry(0x5a, 0xbe) && Entry(0x5b, 0x39)
    ensures Entry(0x5c, 0x4a) && Entry(0x5d, 0x4c) && Entry(0x5e, 0x58) && Entry(0x5f, 0xcf)
  {
  }

  lemma InRow5(c: nat)
    requires c < 16
    ensures Entry(80 + c, SboxRow(5)[c])
  {
    Entries5();
    hide Entry;
    var t := SboxRow(5);
    assert c == 0 || c == 1 || c == 2 || c == 3 || c == 4 || c == 5 || c == 6 || c == 7
      || c == 8 || c == 9 || c == 10 || c == 11 || c == 12 || c == 13 || c == 14 || c == 15;
  }

  lemma Entries6()
    ensures Entry(0x60, 0xd0) && Entry(0x61, 0xef) && Entry(0x62, 0xaa) && Entry(0x63, 0xfb)
    ensures Entry(0x64, 0x43) && Entry(0x65, 0x4d) && Entry(0x66, 0x33) && Entry(0x67, 0x85)
    ensures Entry(0x68, 0x45) && Entry(0x69, 0xf9) && Entry(0x6a, 0x02) && Entry(0x6b, 0x7f)
    ensures Entry(0x6c, 0x50) && Entry(0x6d, 0x3c) && Entry(0x6e, 0x9f) && Entry(0x6f, 0xa8)
  {
  }

  lemma InRow6(c: nat)
    requires c < 16
    ensures Entry(96 + c, SboxRow(6)[c])
  {
    Entries6();
    hide Entry;
    var t := SboxRow(6);
    assert c == 0 || c == 1 || c == 2 || c == 3 || c == 4 || c == 5 || c == 6 || c == 7
      || c == 8 || c == 9 || c == 10 || c == 11 || c == 12 || c == 13 || c == 14 || c == 15;
  }

  lemma Entries7()
    ensures Entry(0x70, 0x51) && Entry(0x71, 0xa3) && Entry(0x72, 0x40) && Entry(0x73, 0x8f)
    ensures Entry(0x74, 0x92) && Entry(0x75, 0x9d) && Entry(0x76, 0x38) && Entry(0x77, 0xf5)
    ensures Entry(0x78, 0xbc) && Entry(0x79, 0xb6) && Entry(0x7a, 0xda) && Entry(0x7b, 0x21)
    ensures Entry(0x7c, 0x10) && Entry(0x7d, 0xff) && Entry(0x7e, 0xf3) && Entry(0x7f, 0xd2)
  {
  }

  lemma InRow7(c: nat)
    requires c < 16
    ensures Entry(112 + c, SboxRow(7)[c])
  {
    Entries7();
    hide Entry;
    var t := SboxRow(7);
    assert c == 0 || c == 1 || c == 2 || c == 3 || c == 4 || c == 5 || c == 6 || c == 7
      || c == 8 || c == 9 || c == 10 || c == 11 || c == 12 || c == 13 || c == 14 || c == 15;
  }

  lemma Entries8()
    ensures Entry(0x80, 0xcd) && Entry(0x81, 0x0c) && Entry(0x82, 0x13) && Entry(0x83, 0xec)
    ensures Entry(0x84, 0x5f) && Entry(0x85, 0x97) && Entry(0x86, 0x44) && Entry(0x87, 0x17)
    ensures Entry(0x88, 0xc4) && Entry(0x89, 0xa7) && Entry(0x8a, 0x7e) && Entry(0x8b, 0x3d)
    ensures Entry(0x8c, 0x64) && Entry(0x8d, 0x5d) && Entry(0x8e, 0x19) && Entry(0x8f, 0x73)
  {
  }

  lemma InRow8(c: nat)
    requires c < 16
    ensures Entry(128 + c, SboxRow(8)[c])
  {
    Entries8();
    hide Entry;
    var t := SboxRow(8);
    assert c == 0 || c == 1 || c == 2 || c == 3 || c == 4 || c == 5 || c == 6 || c == 7
      || c == 8 || c == 9 || c == 10 || c == 11 || c == 12 || c == 13 || c == 14 || c == 15;
  }

  lemma Entries9()
    ensures Entry(0x90, 0x60) && Entry(0x91, 0x81) && Entry(0x92, 0x4f) && Entry(0x93, 0xdc)
    ensures Entry(0x94, 0x22) && Entry(0x95, 0x2a) && Entry(0x96, 0x90) && Entry(0x97, 0x88)
    ensures Entry(0x98, 0x46) && Entry(0x99, 0xee) && Entry(0x9a, 0xb8) && Entry(0x9b, 0x14)
    ensures Entry(0x9c, 0xde) && Entry(0x9d, 0x5e) && Entry(0x9e, 0x0b) && Entry(0x9f, 0xdb)
  {
  }

  lemma InRow9(c: nat)
    requires c < 16
    ensures Entry(144 + c, SboxRow(9)[c])
  {
    Entries9();
    hide Entry;
    var t := SboxRow(9);
    assert c == 0 || c == 1 || c == 2 || c == 3 || c == 4 || c == 5 || c == 6 || c == 7
      || c == 8 || c == 9 || c == 10 || c == 11 || c == 12 || c == 13 || c == 14 || c == 15;
  }

  lemma Entries10()
    ensures Entry(0xa0, 0xe0) && Entry(0xa1, 0x32) && Entry(0xa2, 0x3a) && Entry(0xa3, 0x0a)
    ensures Entry(0xa4, 0x49) && Entry(0xa5, 0x06) && Entry(0xa6, 0x24) && Entry(0xa7, 0x5c)
    ensures Entry(0xa8, 0xc2) && Entry(0xa9, 0xd3) && Entry(0xaa, 0xac) && Entry(0xab, 0x62)
    ensures Entry(0xac, 0x91) && Entry(0xad, 0x95) && Entry(0xae, 0xe4) && Entry(0xaf, 0x79)
  {
  }

  lemma InRow10(c: nat)
    requires c < 16
    ensures Entry(160 + c, SboxRow(10)[c])
  {
    Entries10();
    hide Entry;
    var t := SboxRow(10);
    assert c == 0 || c == 1 || c == 2 || c == 3 || c == 4 || c == 5 || c == 6 || c == 7
      || c == 8 || c == 9 || c == 10 || c == 11 || c == 12 || c == 13 || c == 14 || c == 15;
  }

  lemma Entries11()
    ensures Entry(0xb0, 0xe7) && Entry(0xb1, 0xc8) && Entry(0xb2, 0x37) && Entry(0xb3, 0x6d)
    ensures Entry(0xb4, 0x8d) && Entry(0xb5, 0xd5) && Entry(0xb6, 0x4e) && Entry(0xb7, 0xa9)
    ensures Entry(0xb8, 0x6c) && Entry(0xb9, 0x56) && Entry(0xba, 0xf4) && Entry(0xbb, 0xea)
    ensures Entry(0xbc, 0x65) && Entry(0xbd, 0x7a) && Entry(0xbe, 0xae) && Entry(0xbf, 0x08)
  {
  }

  lemma InRow11(c: nat)
    requires c < 16
    ensures Entry(176 + c, SboxRow(11)[c])
  {
    Entries11();
    hide Entry;
    var t := SboxRow(11);
    assert c == 0 || c == 1 || c == 2 || c == 3 || c == 4 || c == 5 || c == 6 || c == 7
      || c == 8 || c == 9 || c == 10 || c == 11 || c == 12 || c == 13 || c == 14 || c == 15;
  }

  lemma Entries12()
    ensures Entry(0xc0, 0xba) && Entry(0xc1, 0x78) && Entry(0xc2, 0x25) && Entry(0xc3, 0x2e)
    ensures Entry(0xc4, 0x1c) && Entry(0xc5, 0xa6) && Entry(0xc6, 0xb4) && Entry(0xc7, 0xc6)
    ensures Entry(0xc8, 0xe8) && Entry(0xc9, 0xdd) && Entry(0xca, 0x74) && Entry(0xcb, 0x1f)
    ensures Entry(0xcc, 0x4b) && Entry(0xcd, 0xbd) && Entry(0xce, 0x8b) && Entry(0xcf, 0x8a)
  {
  }

  lemma InRow12(c: nat)
    requires c < 16
    ensures Entry(192 + c, SboxRow(12)[c])
  {
    Entries12();
    hide Entry;
    var t := SboxRow(12);
    assert c == 0 || c == 1 || c == 2 || c == 3 || c == 4 || c == 5 || c == 6 || c == 7
      || c == 8 || c == 9 || c == 10 || c == 11 || c == 12 || c == 13 || c == 14 || c == 15;
  }

  lemma Entries13()
    ensures Entry(0xd0, 0x70) && Entry(0xd1, 0x3e) && Entry(0xd2, 0xb5) && Entry(0xd3, 0x66)
    ensures Entry(0xd4, 0x48) && Entry(0xd5, 0x03) && Entry(0xd6, 0xf6) && Entry(0xd7, 0x0e)
    ensures Entry(0xd8, 0x61) && Entry(0xd9, 0x35) && Entry(0xda, 0x57) && Entry(0xdb, 0xb9)
    ensures Entry(0xdc, 0x86) && Entry(0xdd, 0xc1) && Entry(0xde, 0x1d) && Entry(0xdf, 0x9e)
  {
  }

  lemma InRow13(c: nat)
    requires c < 16
    ensures Entry(208 + c, SboxRow(13)[c])
  {
    Entries13();
    hide Entry;
    var t := SboxRow(13);
    assert c == 0 || c == 1 || c == 2 || c == 3 || c == 4 || c == 5 || c == 6 || c == 7
      || c == 8 || c == 9 || c == 10 || c == 11 || c == 12 || c == 13 || c == 14 || c == 15;
  }

  lemma Entries14()
    ensures Entry(0xe0, 0xe1) && Entry(0xe1, 0xf8) && Entry(0xe2, 0x98) && Entry(0xe3, 0x11)
    ensures Entry(0xe4, 0x69) && Entry(0xe5, 0xd9) && Entry(0xe6, 0x8e) && Entry(0xe7, 0x94)
    ensures Entry(0xe8, 0x9b) && Entry(0xe9, 0x1e) && Entry(0xea, 0x87) && Entry(0xeb, 0xe9)
    ensures Entry(0xec, 0xce) && Entry(0xed, 0x55) && Entry(0xee, 0x28) && Entry(0xef, 0xdf)
  {
  }

  lemma InRow14(c: nat)
    requires c < 16
    ensures Entry(224 + c, SboxRow(14)[c])
  {
    Entries14();
    hide Entry;
    var t := SboxRow(14);
    assert c == 0 || c == 1 || c == 2 || c == 3 || c == 4 || c == 5 || c == 6 || c == 7
      || c == 8 || c == 9 || c == 10 || c == 11 || c == 12 || c == 13 || c == 14 || c == 15;
  }

  lemma Entries15()
    ensures Entry(0xf0, 0x8c) && Entry(0xf1, 0xa1) && Entry(0xf2, 0x89) && Entry(0xf3, 0x0d)
    ensures Entry(0xf4, 0xbf) && Entry(0xf5, 0xe6) && Entry(0xf6, 0x42) && Entry(0xf7, 0x68)
    ensures Entry(0xf8, 0x41) && Entry(0xf9, 0x99) && Entry(0xfa, 0x2d) && Entry(0xfb, 0x0f)
    ensures Entry(0xfc, 0xb0) && Entry(0xfd, 0x54) && Entry(0xfe, 0xbb) && Entry(0xff, 0x16)
  {
  }

  lemma InRow15(c: nat)
    requires c < 16
    ensures Entry(240 + c, SboxRow(15)[c])
  {
    Entries15();
    hide Entry;
    var t := SboxRow(15);
    assert c == 0 || c == 1 || c == 2 || c == 3 || c == 4 || c == 5 || c == 6 || c == 7
      || c == 8 || c == 9 || c == 10 || c == 11 || c == 12 || c == 13 || c == 14 || c == 15;
  }

  lemma SboxConstructed(n: byte)
    ensures Entry(n, Sbox(n))
  {
    hide Entry, SboxRow;
    var r, c := n / 16, n % 16;
    if
    case r == 0 => InRow0(c);
    case r == 1 => InRow1(c);
    case r == 2 => InRow2(c);
    case r == 3 => InRow3(c);
    case r == 4 => InRow4(c);
    case r == 5 => InRow5(c);
    case r == 6 => InRow6(c);
    case r == 7 => InRow7(c);
    case r == 8 => InRow8(c);
    case r == 9 => InRow9(c);
    case r == 10 => InRow10(c);
    case r == 11 => InRow11(c);
    case r == 12 => InRow12(c);
    case r == 13 => InRow13(c);
    case r == 14 => InRow14(c);
    case r == 15 => InRow15(c);
  }

  // The substitution is the affine map of the inverse.
  lemma SubIsAffineInverse(x: bv8)
    ensures exists y :: Sub(x) == Affine(y) && Inverses(x, y)
  {
    hide Sbox, Inverses, Affine, Unaffine;
    SboxConstructed(x as int);
    BitsToByte(x);
    assert Sub(x) == Affine(Unaffine(Sub(x))) && Inverses(x, Unaffine(Sub(x)));
  }
}
