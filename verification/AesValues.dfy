/**
 Single values of the substitution table of crypto/tiny_aes.c, as bit vectors.
 */
module AesValues {
  import opened AesTables

  lemma SubIs(x: bv8, n: byte, v: byte, y: bv8)
    requires x == n as bv8 && n == x as int && Sbox(n) == v && y == v as bv8
    ensures Sub(x) == y
  {
    hide Sbox;
  }

  lemma Sbox00()
    ensures Sbox(0x00) == 0x63 && Sbox(0x01) == 0x7c && Sbox(0x02) == 0x77 && Sbox(0x03) == 0x7b
    ensures Sbox(0x04) == 0xf2 && Sbox(0x05) == 0x6b && Sbox(0x06) == 0x6f && Sbox(0x07) == 0xc5
  {
    var t := SboxRow(0);
    hide SboxRow;
  }

  lemma Sub00()
    ensures Sub(0x00) == 0x63 && Sub(0x01) == 0x7c && Sub(0x02) == 0x77 && Sub(0x03) == 0x7b
    ensures Sub(0x04) == 0xf2 && Sub(0x05) == 0x6b && Sub(0x06) == 0x6f && Sub(0x07) == 0xc5
  {
    hide Sub, Sbox;
    Sbox00();
    SubIs(0x00, 0x00, 0x63, 0x63); SubIs(0x01, 0x01, 0x7c, 0x7c); SubIs(0x02, 0x02, 0x77, 0x77); SubIs(0x03, 0x03, 0x7b, 0x7b);
    SubIs(0x04, 0x04, 0xf2, 0xf2); SubIs(0x05, 0x05, 0x6b, 0x6b); SubIs(0x06, 0x06, 0x6f, 0x6f); SubIs(0x07, 0x07, 0xc5, 0xc5);
  }

  lemma Sbox08()
    ensures Sbox(0x08) == 0x30 && Sbox(0x09) == 0x01 && Sbox(0x0a) == 0x67 && Sbox(0x0b) == 0x2b
    ensures Sbox(0x0c) == 0xfe && Sbox(0x0d) == 0xd7 && Sbox(0x0e) == 0xab && Sbox(0x0f) == 0x76
  {
    var t := SboxRow(0);
    hide SboxRow;
  }

  lemma Sub08()
    ensures Sub(0x08) == 0x30 && Sub(0x09) == 0x01 && Sub(0x0a) == 0x67 && Sub(0x0b) == 0x2b
    ensures Sub(0x0c) == 0xfe && Sub(0x0d) == 0xd7 && Sub(0x0e) == 0xab && Sub(0x0f) == 0x76
  {
    hide Sub, Sbox;
    Sbox08();
    SubIs(0x08, 0x08, 0x30, 0x30); SubIs(0x09, 0x09, 0x01, 0x01); SubIs(0x0a, 0x0a, 0x67, 0x67); SubIs(0x0b, 0x0b, 0x2b, 0x2b);
    SubIs(0x0c, 0x0c, 0xfe, 0xfe); SubIs(0x0d, 0x0d, 0xd7, 0xd7); SubIs(0x0e, 0x0e, 0xab, 0xab); SubIs(0x0f, 0x0f, 0x76, 0x76);
  }

  lemma Sbox10()
    ensures Sbox(0x10) == 0xca && Sbox(0x11) == 0x82 && Sbox(0x12) == 0xc9 && Sbox(0x13) == 0x7d
    ensures Sbox(0x14) == 0xfa && Sbox(0x15) == 0x59 && Sbox(0x16) == 0x47 && Sbox(0x17) == 0xf0
  {
    var t := SboxRow(1);
    hide SboxRow;
  }

  lemma Sub10()
    ensures Sub(0x10) == 0xca && Sub(0x11) == 0x82 && Sub(0x12) == 0xc9 && Sub(0x13) == 0x7d
    ensures Sub(0x14) == 0xfa && Sub(0x15) == 0x59 && Sub(0x16) == 0x47 && Sub(0x17) == 0xf0
  {
    hide Sub, Sbox;
    Sbox10();
    SubIs(0x10, 0x10, 0xca, 0xca); SubIs(0x11, 0x11, 0x82, 0x82); SubIs(0x12, 0x12, 0xc9, 0xc9); SubIs(0x13, 0x13, 0x7d, 0x7d);
    SubIs(0x14, 0x14, 0xfa, 0xfa); SubIs(0x15, 0x15, 0x59, 0x59); SubIs(0x16, 0x16, 0x47, 0x47); SubIs(0x17, 0x17, 0xf0, 0xf0);
  }

  lemma Sbox18()
    ensures Sbox(0x18) == 0xad && Sbox(0x19) == 0xd4 && Sbox(0x1a) == 0xa2 && Sbox(0x1b) == 0xaf
    ensures Sbox(0x1c) == 0x9c && Sbox(0x1d) == 0xa4 && Sbox(0x1e) == 0x72 && Sbox(0x1f) == 0xc0
  {
    var t := SboxRow(1);
    hide SboxRow;
  }

  lemma Sub18()
    ensures Sub(0x18) == 0xad && Sub(0x19) == 0xd4 && Sub(0x1a) == 0xa2 && Sub(0x1b) == 0xaf
    ensures Sub(0x1c) == 0x9c && Sub(0x1d) == 0xa4 && Sub(0x1e) == 0x72 && Sub(0x1f) == 0xc0
  {
    hide Sub, Sbox;
    Sbox18();
    SubIs(0x18, 0x18, 0xad, 0xad); SubIs(0x19, 0x19, 0xd4, 0xd4); SubIs(0x1a, 0x1a, 0xa2, 0xa2); SubIs(0x1b, 0x1b, 0xaf, 0xaf);
    SubIs(0x1c, 0x1c, 0x9c, 0x9c); SubIs(0x1d, 0x1d, 0xa4, 0xa4); SubIs(0x1e, 0x1e, 0x72, 0x72); SubIs(0x1f, 0x1f, 0xc0, 0xc0);
  }

  lemma Sbox20()
    ensures Sbox(0x20) == 0xb7 && Sbox(0x21) == 0xfd && Sbox(0x22) == 0x93 && Sbox(0x23) == 0x26
    ensures Sbox(0x24) == 0x36 && Sbox(0x25) == 0x3f && Sbox(0x26) == 0xf7 && Sbox(0x27) == 0xcc
  {
    var t := SboxRow(2);
    hide SboxRow;
  }

  lemma Sub20()
    ensures Sub(0x20) == 0xb7 && Sub(0x21) == 0xfd && Sub(0x22) == 0x93 && Sub(0x23) == 0x26
    ensures Sub(0x24) == 0x36 && Sub(0x25) == 0x3f && Sub(0x26) == 0xf7 && Sub(0x27) == 0xcc
  {
    hide Sub, Sbox;
    Sbox20();
    SubIs(0x20, 0x20, 0xb7, 0xb7); SubIs(0x21, 0x21, 0xfd, 0xfd); SubIs(0x22, 0x22, 0x93, 0x93); SubIs(0x23, 0x23, 0x26, 0x26);
    SubIs(0x24, 0x24, 0x36, 0x36); SubIs(0x25, 0x25, 0x3f, 0x3f); SubIs(0x26, 0x26, 0xf7, 0xf7); SubIs(0x27, 0x27, 0xcc, 0xcc);
  }

  lemma Sbox28()
    ensures Sbox(0x28) == 0x34 && Sbox(0x29) == 0xa5 && Sbox(0x2a) == 0xe5 && Sbox(0x2b) == 0xf1
    ensures Sbox(0x2c) == 0x71 && Sbox(0x2d) == 0xd8 && Sbox(0x2e) == 0x31 && Sbox(0x2f) == 0x15
  {
    var t := SboxRow(2);
    hide SboxRow;
  }

  lemma Sub28()
    ensures Sub(0x28) == 0x34 && Sub(0x29) == 0xa5 && Sub(0x2a) == 0xe5 && Sub(0x2b) == 0xf1
    ensures Sub(0x2c) == 0x71 && Sub(0x2d) == 0xd8 && Sub(0x2e) == 0x31 && Sub(0x2f) == 0x15
  {
    hide Sub, Sbox;
    Sbox28();
    SubIs(0x28, 0x28, 0x34, 0x34); SubIs(0x29, 0x29, 0xa5, 0xa5); SubIs(0x2a, 0x2a, 0xe5, 0xe5); SubIs(0x2b, 0x2b, 0xf1, 0xf1);
    SubIs(0x2c, 0x2c, 0x71, 0x71); SubIs(0x2d, 0x2d, 0xd8, 0xd8); SubIs(0x2e, 0x2e, 0x31, 0x31); SubIs(0x2f, 0x2f, 0x15, 0x15);
  }

  lemma Sbox30()
    ensures Sbox(0x30) == 0x04 && Sbox(0x31) == 0xc7 && Sbox(0x32) == 0x23 && Sbox(0x33) == 0xc3
    ensures Sbox(0x34) == 0x18 && Sbox(0x35) == 0x96 && Sbox(0x36) == 0x05 && Sbox(0x37) == 0x9a
  {
    var t := SboxRow(3);
    hide SboxRow;
  }

  lemma Sub30()
    ensures Sub(0x30) == 0x04 && Sub(0x31) == 0xc7 && Sub(0x32) == 0x23 && Sub(0x33) == 0xc3
    ensures Sub(0x34) == 0x18 && Sub(0x35) == 0x96 && Sub(0x36) == 0x05 && Sub(0x37) == 0x9a
  {
    hide Sub, Sbox;
    Sbox30();
    SubIs(0x30, 0x30, 0x04, 0x04); SubIs(0x31, 0x31, 0xc7, 0xc7); SubIs(0x32, 0x32, 0x23, 0x23); SubIs(0x33, 0x33, 0xc3, 0xc3);
    SubIs(0x34, 0x34, 0x18, 0x18); SubIs(0x35, 0x35, 0x96, 0x96); SubIs(0x36, 0x36, 0x05, 0x05); SubIs(0x37, 0x37, 0x9a, 0x9a);
  }

  lemma Sbox38()
    ensures Sbox(0x38) == 0x07 && Sbox(0x39) == 0x12 && Sbox(0x3a) == 0x80 && Sbox(0x3b) == 0xe2
    ensures Sbox(0x3c) == 0xeb && Sbox(0x3d) == 0x27 && Sbox(0x3e) == 0xb2 && Sbox(0x3f) == 0x75
  {
    var t := SboxRow(3);
    hide SboxRow;
  }

  lemma Sub38()
    ensures Sub(0x38) == 0x07 && Sub(0x39) == 0x12 && Sub(0x3a) == 0x80 && Sub(0x3b) == 0xe2
    ensures Sub(0x3c) == 0xeb && Sub(0x3d) == 0x27 && Sub(0x3e) == 0xb2 && Sub(0x3f) == 0x75
  {
    hide Sub, Sbox;
    Sbox38();
    SubIs(0x38, 0x38, 0x07, 0x07); SubIs(0x39, 0x39, 0x12, 0x12); SubIs(0x3a, 0x3a, 0x80, 0x80); SubIs(0x3b, 0x3b, 0xe2, 0xe2);
    SubIs(0x3c, 0x3c, 0xeb, 0xeb); SubIs(0x3d, 0x3d, 0x27, 0x27); SubIs(0x3e, 0x3e, 0xb2, 0xb2); SubIs(0x3f, 0x3f, 0x75, 0x75);
  }

  lemma Sbox40()
    ensures Sbox(0x40) == 0x09 && Sbox(0x41) == 0x83 && Sbox(0x42) == 0x2c && Sbox(0x43) == 0x1a
    ensures Sbox(0x44) == 0x1b && Sbox(0x45) == 0x6e && Sbox(0x46) == 0x5a && Sbox(0x47) == 0xa0
  {
    var t := SboxRow(4);
    hide SboxRow;
  }

  lemma Sub40()
    ensures Sub(0x40) == 0x09 && Sub(0x41) == 0x83 && Sub(0x42) == 0x2c && Sub(0x43) == 0x1a
    ensures Sub(0x44) == 0x1b && Sub(0x45) == 0x6e && Sub(0x46) == 0x5a && Sub(0x47) == 0xa0
  {
    hide Sub, Sbox;
    Sbox40();
    SubIs(0x40, 0x40, 0x09, 0x09); SubIs(0x41, 0x41, 0x83, 0x83); SubIs(0x42, 0x42, 0x2c, 0x2c); SubIs(0x43, 0x43, 0x1a, 0x1a);
    SubIs(0x44, 0x44, 0x1b, 0x1b); SubIs(0x45, 0x45, 0x6e, 0x6e); SubIs(0x46, 0x46, 0x5a, 0x5a); SubIs(0x47, 0x47, 0xa0, 0xa0);
  }

  lemma Sbox48()
    ensures Sbox(0x48) == 0x52 && Sbox(0x49) == 0x3b && Sbox(0x4a) == 0xd6 && Sbox(0x4b) == 0xb3
    ensures Sbox(0x4c) == 0x29 && Sbox(0x4d) == 0xe3 && Sbox(0x4e) == 0x2f && Sbox(0x4f) == 0x84
  {
    var t := SboxRow(4);
    hide SboxRow;
  }

  lemma Sub48()
    ensures Sub(0x48) == 0x52 && Sub(0x49) == 0x3b && Sub(0x4a) == 0xd6 && Sub(0x4b) == 0xb3
    ensures Sub(0x4c) == 0x29 && Sub(0x4d) == 0xe3 && Sub(0x4e) == 0x2f && Sub(0x4f) == 0x84
  {
    hide Sub, Sbox;
    Sbox48();
    SubIs(0x48, 0x48, 0x52, 0x52); SubIs(0x49, 0x49, 0x3b, 0x3b); SubIs(0x4a, 0x4a, 0xd6, 0xd6); SubIs(0x4b, 0x4b, 0xb3, 0xb3);
    SubIs(0x4c, 0x4c, 0x29, 0x29); SubIs(0x4d, 0x4d, 0xe3, 0xe3); SubIs(0x4e, 0x4e, 0x2f, 0x2f); SubIs(0x4f, 0x4f, 0x84, 0x84);
  }

  lemma Sbox50()
    ensures Sbox(0x50) == 0x53 && Sbox(0x51) == 0xd1 && Sbox(0x52) == 0x00 && Sbox(0x53) == 0xed
    ensures Sbox(0x54) == 0x20 && Sbox(0x55) == 0xfc && Sbox(0x56) == 0xb1 && Sbox(0x57) == 0x5b
  {
    var t := SboxRow(5);
    hide SboxRow;
  }

  lemma Sub50()
    ensures Sub(0x50) == 0x53 && Sub(0x51) == 0xd1 && Sub(0x52) == 0x00 && Sub(0x53) == 0xed
    ensures Sub(0x54) == 0x20 && Sub(0x55) == 0xfc && Sub(0x56) == 0xb1 && Sub(0x57) == 0x5b
  {
    hide Sub, Sbox;
    Sbox50();
    SubIs(0x50, 0x50, 0x53, 0x53); SubIs(0x51, 0x51, 0xd1, 0xd1); SubIs(0x52, 0x52, 0x00, 0x00); SubIs(0x53, 0x53, 0xed, 0xed);
    SubIs(0x54, 0x54, 0x20, 0x20); SubIs(0x55, 0x55, 0xfc, 0xfc); SubIs(0x56, 0x56, 0xb1, 0xb1); SubIs(0x57, 0x57, 0x5b, 0x5b);
  }

  lemma Sbox58()
    ensures Sbox(0x58) == 0x6a && Sbox(0x59) == 0xcb && Sbox(0x5a) == 0xbe && Sbox(0x5b) == 0x39
    ensures Sbox(0x5c) == 0x4a && Sbox(0x5d) == 0x4c && Sbox(0x5e) == 0x58 && Sbox(0x5f) == 0xcf
  {
    var t := SboxRow(5);
    hide SboxRow;
  }

  lemma Sub58()
    ensures Sub(0x58) == 0x6a && Sub(0x59) == 0xcb && Sub(0x5a) == 0xbe && Sub(0x5b) == 0x39
    ensures Sub(0x5c) == 0x4a && Sub(0x5d) == 0x4c && Sub(0x5e) == 0x58 && Sub(0x5f) == 0xcf
  {
    hide Sub, Sbox;
    Sbox58();
    SubIs(0x58, 0x58, 0x6a, 0x6a); SubIs(0x59, 0x59, 0xcb, 0xcb); SubIs(0x5a, 0x5a, 0xbe, 0xbe); SubIs(0x5b, 0x5b, 0x39, 0x39);
    SubIs(0x5c, 0x5c, 0x4a, 0x4a); SubIs(0x5d, 0x5d, 0x4c, 0x4c); SubIs(0x5e, 0x5e, 0x58, 0x58); SubIs(0x5f, 0x5f, 0xcf, 0xcf);
  }

  lemma Sbox60()
    ensures Sbox(0x60) == 0xd0 && Sbox(0x61) == 0xef && Sbox(0x62) == 0xaa && Sbox(0x63) == 0xfb
    ensures Sbox(0x64) == 0x43 && Sbox(0x65) == 0x4d && Sbox(0x66) == 0x33 && Sbox(0x67) == 0x85
  {
    var t := SboxRow(6);
    hide SboxRow;
  }

  lemma Sub60()
    ensures Sub(0x60) == 0xd0 && Sub(0x61) == 0xef && Sub(0x62) == 0xaa && Sub(0x63) == 0xfb
    ensures Sub(0x64) == 0x43 && Sub(0x65) == 0x4d && Sub(0x66) == 0x33 && Sub(0x67) == 0x85
  {
    hide Sub, Sbox;
    Sbox60();
    SubIs(0x60, 0x60, 0xd0, 0xd0); SubIs(0x61, 0x61, 0xef, 0xef); SubIs(0x62, 0x62, 0xaa, 0xaa); SubIs(0x63, 0x63, 0xfb, 0xfb);
    SubIs(0x64, 0x64, 0x43, 0x43); SubIs(0x65, 0x65, 0x4d, 0x4d); SubIs(0x66, 0x66, 0x33, 0x33); SubIs(0x67, 0x67, 0x85, 0x85);
  }

  lemma Sbox68()
    ensures Sbox(0x68) == 0x45 && Sbox(0x69) == 0xf9 && Sbox(0x6a) == 0x02 && Sbox(0x6b) == 0x7f
    ensures Sbox(0x6c) == 0x50 && Sbox(0x6d) == 0x3c && Sbox(0x6e) == 0x9f && Sbox(0x6f) == 0xa8
  {
    var t := SboxRow(6);
    hide SboxRow;
  }

  lemma Sub68()
    ensures Sub(0x68) == 0x45 && Sub(0x69) == 0xf9 && Sub(0x6a) == 0x02 && Sub(0x6b) == 0x7f
    ensures Sub(0x6c) == 0x50 && Sub(0x6d) == 0x3c && Sub(0x6e) == 0x9f && Sub(0x6f) == 0xa8
  {
    hide Sub, Sbox;
    Sbox68();
    SubIs(0x68, 0x68, 0x45, 0x45); SubIs(0x69, 0x69, 0xf9, 0xf9); SubIs(0x6a, 0x6a, 0x02, 0x02); SubIs(0x6b, 0x6b, 0x7f, 0x7f);
    SubIs(0x6c, 0x6c, 0x50, 0x50); SubIs(0x6d, 0x6d, 0x3c, 0x3c); SubIs(0x6e, 0x6e, 0x9f, 0x9f); SubIs(0x6f, 0x6f, 0xa8, 0xa8);
  }

  lemma Sbox70()
    ensures Sbox(0x70) == 0x51 && Sbox(0x71) == 0xa3 && Sbox(0x72) == 0x40 && Sbox(0x73) == 0x8f
    ensures Sbox(0x74) == 0x92 && Sbox(0x75) == 0x9d && Sbox(0x76) == 0x38 && Sbox(0x77) == 0xf5
  {
    var t := SboxRow(7);
    hide SboxRow;
  }

  lemma Sub70()
    ensures Sub(0x70) == 0x51 && Sub(0x71) == 0xa3 && Sub(0x72) == 0x40 && Sub(0x73) == 0x8f
    ensures Sub(0x74) == 0x92 && Sub(0x75) == 0x9d && Sub(0x76) == 0x38 && Sub(0x77) == 0xf5
  {
    hide Sub, Sbox;
    Sbox70();
    SubIs(0x70, 0x70, 0x51, 0x51); SubIs(0x71, 0x71, 0xa3, 0xa3); SubIs(0x72, 0x72, 0x40, 0x40); SubIs(0x73, 0x73, 0x8f, 0x8f);
    SubIs(0x74, 0x74, 0x92, 0x92); SubIs(0x75, 0x75, 0x9d, 0x9d); SubIs(0x76, 0x76, 0x38, 0x38); SubIs(0x77, 0x77, 0xf5, 0xf5);
  }

  lemma Sbox78()
    ensures Sbox(0x78) == 0xbc && Sbox(0x79) == 0xb6 && Sbox(0x7a) == 0xda && Sbox(0x7b) == 0x21
    ensures Sbox(0x7c) == 0x10 && Sbox(0x7d) == 0xff && Sbox(0x7e) == 0xf3 && Sbox(0x7f) == 0xd2
  {
    var t := SboxRow(7);
    hide SboxRow;
  }

  lemma Sub78()
    ensures Sub(0x78) == 0xbc && Sub(0x79) == 0xb6 && Sub(0x7a) == 0xda && Sub(0x7b) == 0x21
    ensures Sub(0x7c) == 0x10 && Sub(0x7d) == 0xff && Sub(0x7e) == 0xf3 && Sub(0x7f) == 0xd2
  {
    hide Sub, Sbox;
    Sbox78();
    SubIs(0x78, 0x78, 0xbc, 0xbc); SubIs(0x79, 0x79, 0xb6, 0xb6); SubIs(0x7a, 0x7a, 0xda, 0xda); SubIs(0x7b, 0x7b, 0x21, 0x21);
    SubIs(0x7c, 0x7c, 0x10, 0x10); SubIs(0x7d, 0x7d, 0xff, 0xff); SubIs(0x7e, 0x7e, 0xf3, 0xf3); SubIs(0x7f, 0x7f, 0xd2, 0xd2);
  }

  lemma Sbox80()
    ensures Sbox(0x80) == 0xcd && Sbox(0x81) == 0x0c && Sbox(0x82) == 0x13 && Sbox(0x83) == 0xec
    ensures Sbox(0x84) == 0x5f && Sbox(0x85) == 0x97 && Sbox(0x86) == 0x44 && Sbox(0x87) == 0x17
  {
    var t := SboxRow(8);
    hide SboxRow;
  }

  lemma Sub80()
    ensures Sub(0x80) == 0xcd && Sub(0x81) == 0x0c && Sub(0x82) == 0x13 && Sub(0x83) == 0xec
    ensures Sub(0x84) == 0x5f && Sub(0x85) == 0x97 && Sub(0x86) == 0x44 && Sub(0x87) == 0x17
  {
    hide Sub, Sbox;
    Sbox80();
    SubIs(0x80, 0x80, 0xcd, 0xcd); SubIs(0x81, 0x81, 0x0c, 0x0c); SubIs(0x82, 0x82, 0x13, 0x13); SubIs(0x83, 0x83, 0xec, 0xec);
    SubIs(0x84, 0x84, 0x5f, 0x5f); SubIs(0x85, 0x85, 0x97, 0x97); SubIs(0x86, 0x86, 0x44, 0x44); SubIs(0x87, 0x87, 0x17, 0x17);
  }

  lemma Sbox88()
    ensures Sbox(0x88) == 0xc4 && Sbox(0x89) == 0xa7 && Sbox(0x8a) == 0x7e && Sbox(0x8b) == 0x3d
    ensures Sbox(0x8c) == 0x64 && Sbox(0x8d) == 0x5d && Sbox(0x8e) == 0x19 && Sbox(0x8f) == 0x73
  {
    var t := SboxRow(8);
    hide SboxRow;
  }

  lemma Sub88()
    ensures Sub(0x88) == 0xc4 && Sub(0x89) == 0xa7 && Sub(0x8a) == 0x7e && Sub(0x8b) == 0x3d
    ensures Sub(0x8c) == 0x64 && Sub(0x8d) == 0x5d && Sub(0x8e) == 0x19 && Sub(0x8f) == 0x73
  {
    hide Sub, Sbox;
    Sbox88();
    SubIs(0x88, 0x88, 0xc4, 0xc4); SubIs(0x89, 0x89, 0xa7, 0xa7); SubIs(0x8a, 0x8a, 0x7e, 0x7e); SubIs(0x8b, 0x8b, 0x3d, 0x3d);
    SubIs(0x8c, 0x8c, 0x64, 0x64); SubIs(0x8d, 0x8d, 0x5d, 0x5d); SubIs(0x8e, 0x8e, 0x19, 0x19); SubIs(0x8f, 0x8f, 0x73, 0x73);
  }

  lemma Sbox90()
    ensures Sbox(0x90) == 0x60 && Sbox(0x91) == 0x81 && Sbox(0x92) == 0x4f && Sbox(0x93) == 0xdc
    ensures Sbox(0x94) == 0x22 && Sbox(0x95) == 0x2a && Sbox(0x96) == 0x90 && Sbox(0x97) == 0x88
  {
    var t := SboxRow(9);
    hide SboxRow;
  }

  lemma Sub90()
    ensures Sub(0x90) == 0x60 && Sub(0x91) == 0x81 && Sub(0x92) == 0x4f && Sub(0x93) == 0xdc
    ensures Sub(0x94) == 0x22 && Sub(0x95) == 0x2a && Sub(0x96) == 0x90 && Sub(0x97) == 0x88
  {
    hide Sub, Sbox;
    Sbox90();
    SubIs(0x90, 0x90, 0x60, 0x60); SubIs(0x91, 0x91, 0x81, 0x81); SubIs(0x92, 0x92, 0x4f, 0x4f); SubIs(0x93, 0x93, 0xdc, 0xdc);
    SubIs(0x94, 0x94, 0x22, 0x22); SubIs(0x95, 0x95, 0x2a, 0x2a); SubIs(0x96, 0x96, 0x90, 0x90); SubIs(0x97, 0x97, 0x88, 0x88);
  }

  lemma Sbox98()
    ensures Sbox(0x98) == 0x46 && Sbox(0x99) == 0xee && Sbox(0x9a) == 0xb8 && Sbox(0x9b) == 0x14
    ensures Sbox(0x9c) == 0xde && Sbox(0x9d) == 0x5e && Sbox(0x9e) == 0x0b && Sbox(0x9f) == 0xdb
  {
    var t := SboxRow(9);
    hide SboxRow;
  }

  lemma Sub98()
    ensures Sub(0x98) == 0x46 && Sub(0x99) == 0xee && Sub(0x9a) == 0xb8 && Sub(0x9b) == 0x14
    ensures Sub(0x9c) == 0xde && Sub(0x9d) == 0x5e && Sub(0x9e) == 0x0b && Sub(0x9f) == 0xdb
  {
    hide Sub, Sbox;
    Sbox98();
    SubIs(0x98, 0x98, 0x46, 0x46); SubIs(0x99, 0x99, 0xee, 0xee); SubIs(0x9a, 0x9a, 0xb8, 0xb8); SubIs(0x9b, 0x9b, 0x14, 0x14);
    SubIs(0x9c, 0x9c, 0xde, 0xde); SubIs(0x9d, 0x9d, 0x5e, 0x5e); SubIs(0x9e, 0x9e, 0x0b, 0x0b); SubIs(0x9f, 0x9f, 0xdb, 0xdb);
  }

  lemma Sboxa0()
    ensures Sbox(0xa0) == 0xe0 && Sbox(0xa1) == 0x32 && Sbox(0xa2) == 0x3a && Sbox(0xa3) == 0x0a
    ensures Sbox(0xa4) == 0x49 && Sbox(0xa5) == 0x06 && Sbox(0xa6) == 0x24 && Sbox(0xa7) == 0x5c
  {
    var t := SboxRow(10);
    hide SboxRow;
  }

  lemma Suba0()
    ensures Sub(0xa0) == 0xe0 && Sub(0xa1) == 0x32 && Sub(0xa2) == 0x3a && Sub(0xa3) == 0x0a
    ensures Sub(0xa4) == 0x49 && Sub(0xa5) == 0x06 && Sub(0xa6) == 0x24 && Sub(0xa7) == 0x5c
  {
    hide Sub, Sbox;
    Sboxa0();
    SubIs(0xa0, 0xa0, 0xe0, 0xe0); SubIs(0xa1, 0xa1, 0x32, 0x32); SubIs(0xa2, 0xa2, 0x3a, 0x3a); SubIs(0xa3, 0xa3, 0x0a, 0x0a);
    SubIs(0xa4, 0xa4, 0x49, 0x49); SubIs(0xa5, 0xa5, 0x06, 0x06); SubIs(0xa6, 0xa6, 0x24, 0x24); SubIs(0xa7, 0xa7, 0x5c, 0x5c);
  }

  lemma Sboxa8()
    ensures Sbox(0xa8) == 0xc2 && Sbox(0xa9) == 0xd3 && Sbox(0xaa) == 0xac && Sbox(0xab) == 0x62
    ensures Sbox(0xac) == 0x91 && Sbox(0xad) == 0x95 && Sbox(0xae) == 0xe4 && Sbox(0xaf) == 0x79
  {
    var t := SboxRow(10);
    hide SboxRow;
  }

  lemma Suba8()
    ensures Sub(0xa8) == 0xc2 && Sub(0xa9) == 0xd3 && Sub(0xaa) == 0xac && Sub(0xab) == 0x62
    ensures Sub(0xac) == 0x91 && Sub(0xad) == 0x95 && Sub(0xae) == 0xe4 && Sub(0xaf) == 0x79
  {
    hide Sub, Sbox;
    Sboxa8();
    SubIs(0xa8, 0xa8, 0xc2, 0xc2); SubIs(0xa9, 0xa9, 0xd3, 0xd3); SubIs(0xaa, 0xaa, 0xac, 0xac); SubIs(0xab, 0xab, 0x62, 0x62);
    SubIs(0xac, 0xac, 0x91, 0x91); SubIs(0xad, 0xad, 0x95, 0x95); SubIs(0xae, 0xae, 0xe4, 0xe4); SubIs(0xaf, 0xaf, 0x79, 0x79);
  }

  lemma Sboxb0()
    ensures Sbox(0xb0) == 0xe7 && Sbox(0xb1) == 0xc8 && Sbox(0xb2) == 0x37 && Sbox(0xb3) == 0x6d
    ensures Sbox(0xb4) == 0x8d && Sbox(0xb5) == 0xd5 && Sbox(0xb6) == 0x4e && Sbox(0xb7) == 0xa9
  {
    var t := SboxRow(11);
    hide SboxRow;
  }

  lemma Subb0()
    ensures Sub(0xb0) == 0xe7 && Sub(0xb1) == 0xc8 && Sub(0xb2) == 0x37 && Sub(0xb3) == 0x6d
    ensures Sub(0xb4) == 0x8d && Sub(0xb5) == 0xd5 && Sub(0xb6) == 0x4e && Sub(0xb7) == 0xa9
  {
    hide Sub, Sbox;
    Sboxb0();
    SubIs(0xb0, 0xb0, 0xe7, 0xe7); SubIs(0xb1, 0xb1, 0xc8, 0xc8); SubIs(0xb2, 0xb2, 0x37, 0x37); SubIs(0xb3, 0xb3, 0x6d, 0x6d);
    SubIs(0xb4, 0xb4, 0x8d, 0x8d); SubIs(0xb5, 0xb5, 0xd5, 0xd5); SubIs(0xb6, 0xb6, 0x4e, 0x4e); SubIs(0xb7, 0xb7, 0xa9, 0xa9);
  }

  lemma Sboxb8()
    ensures Sbox(0xb8) == 0x6c && Sbox(0xb9) == 0x56 && Sbox(0xba) == 0xf4 && Sbox(0xbb) == 0xea
    ensures Sbox(0xbc) == 0x65 && Sbox(0xbd) == 0x7a && Sbox(0xbe) == 0xae && Sbox(0xbf) == 0x08
  {
    var t := SboxRow(11);
    hide SboxRow;
  }

  lemma Subb8()
    ensures Sub(0xb8) == 0x6c && Sub(0xb9) == 0x56 && Sub(0xba) == 0xf4 && Sub(0xbb) == 0xea
    ensures Sub(0xbc) == 0x65 && Sub(0xbd) == 0x7a && Sub(0xbe) == 0xae && Sub(0xbf) == 0x08
  {
    hide Sub, Sbox;
    Sboxb8();
    SubIs(0xb8, 0xb8, 0x6c, 0x6c); SubIs(0xb9, 0xb9, 0x56, 0x56); SubIs(0xba, 0xba, 0xf4, 0xf4); SubIs(0xbb, 0xbb, 0xea, 0xea);
    SubIs(0xbc, 0xbc, 0x65, 0x65); SubIs(0xbd, 0xbd, 0x7a, 0x7a); SubIs(0xbe, 0xbe, 0xae, 0xae); SubIs(0xbf, 0xbf, 0x08, 0x08);
  }

  lemma Sboxc0()
    ensures Sbox(0xc0) == 0xba && Sbox(0xc1) == 0x78 && Sbox(0xc2) == 0x25 && Sbox(0xc3) == 0x2e
    ensures Sbox(0xc4) == 0x1c && Sbox(0xc5) == 0xa6 && Sbox(0xc6) == 0xb4 && Sbox(0xc7) == 0xc6
  {
    var t := SboxRow(12);
    hide SboxRow;
  }

  lemma Subc0()
    ensures Sub(0xc0) == 0xba && Sub(0xc1) == 0x78 && Sub(0xc2) == 0x25 && Sub(0xc3) == 0x2e
    ensures Sub(0xc4) == 0x1c && Sub(0xc5) == 0xa6 && Sub(0xc6) == 0xb4 && Sub(0xc7) == 0xc6
  {
    hide Sub, Sbox;
    Sboxc0();
    SubIs(0xc0, 0xc0, 0xba, 0xba); SubIs(0xc1, 0xc1, 0x78, 0x78); SubIs(0xc2, 0xc2, 0x25, 0x25); SubIs(0xc3, 0xc3, 0x2e, 0x2e);
    SubIs(0xc4, 0xc4, 0x1c, 0x1c); SubIs(0xc5, 0xc5, 0xa6, 0xa6); SubIs(0xc6, 0xc6, 0xb4, 0xb4); SubIs(0xc7, 0xc7, 0xc6, 0xc6);
  }

  lemma Sboxc8()
    ensures Sbox(0xc8) == 0xe8 && Sbox(0xc9) == 0xdd && Sbox(0xca) == 0x74 && Sbox(0xcb) == 0x1f
    ensures Sbox(0xcc) == 0x4b && Sbox(0xcd) == 0xbd && Sbox(0xce) == 0x8b && Sbox(0xcf) == 0x8a
  {
    var t := SboxRow(12);
    hide SboxRow;
  }

  lemma Subc8()
    ensures Sub(0xc8) == 0xe8 && Sub(0xc9) == 0xdd && Sub(0xca) == 0x74 && Sub(0xcb) == 0x1f
    ensures Sub(0xcc) == 0x4b && Sub(0xcd) == 0xbd && Sub(0xce) == 0x8b && Sub(0xcf) == 0x8a
  {
    hide Sub, Sbox;
    Sboxc8();
    SubIs(0xc8, 0xc8, 0xe8, 0xe8); SubIs(0xc9, 0xc9, 0xdd, 0xdd); SubIs(0xca, 0xca, 0x74, 0x74); SubIs(0xcb, 0xcb, 0x1f, 0x1f);
    SubIs(0xcc, 0xcc, 0x4b, 0x4b); SubIs(0xcd, 0xcd, 0xbd, 0xbd); SubIs(0xce, 0xce, 0x8b, 0x8b); SubIs(0xcf, 0xcf, 0x8a, 0x8a);
  }

  lemma Sboxd0()
    ensures Sbox(0xd0) == 0x70 && Sbox(0xd1) == 0x3e && Sbox(0xd2) == 0xb5 && Sbox(0xd3) == 0x66
    ensures Sbox(0xd4) == 0x48 && Sbox(0xd5) == 0x03 && Sbox(0xd6) == 0xf6 && Sbox(0xd7) == 0x0e
  {
    var t := SboxRow(13);
    hide SboxRow;
  }

  lemma Subd0()
    ensures Sub(0xd0) == 0x70 && Sub(0xd1) == 0x3e && Sub(0xd2) == 0xb5 && Sub(0xd3) == 0x66
    ensures Sub(0xd4) == 0x48 && Sub(0xd5) == 0x03 && Sub(0xd6) == 0xf6 && Sub(0xd7) == 0x0e
  {
    hide Sub, Sbox;
    Sboxd0();
    SubIs(0xd0, 0xd0, 0x70, 0x70); SubIs(0xd1, 0xd1, 0x3e, 0x3e); SubIs(0xd2, 0xd2, 0xb5, 0xb5); SubIs(0xd3, 0xd3, 0x66, 0x66);
    SubIs(0xd4, 0xd4, 0x48, 0x48); SubIs(0xd5, 0xd5, 0x03, 0x03); SubIs(0xd6, 0xd6, 0xf6, 0xf6); SubIs(0xd7, 0xd7, 0x0e, 0x0e);
  }

  lemma Sboxd8()
    ensures Sbox(0xd8) == 0x61 && Sbox(0xd9) == 0x35 && Sbox(0xda) == 0x57 && Sbox(0xdb) == 0xb9
    ensures Sbox(0xdc) == 0x86 && Sbox(0xdd) == 0xc1 && Sbox(0xde) == 0x1d && Sbox(0xdf) == 0x9e
  {
    var t := SboxRow(13);
    hide SboxRow;
  }

  lemma Subd8()
    ensures Sub(0xd8) == 0x61 && Sub(0xd9) == 0x35 && Sub(0xda) == 0x57 && Sub(0xdb) == 0xb9
    ensures Sub(0xdc) == 0x86 && Sub(0xdd) == 0xc1 && Sub(0xde) == 0x1d && Sub(0xdf) == 0x9e
  {
    hide Sub, Sbox;
    Sboxd8();
    SubIs(0xd8, 0xd8, 0x61, 0x61); SubIs(0xd9, 0xd9, 0x35, 0x35); SubIs(0xda, 0xda, 0x57, 0x57); SubIs(0xdb, 0xdb, 0xb9, 0xb9);
    SubIs(0xdc, 0xdc, 0x86, 0x86); SubIs(0xdd, 0xdd, 0xc1, 0xc1); SubIs(0xde, 0xde, 0x1d, 0x1d); SubIs(0xdf, 0xdf, 0x9e, 0x9e);
  }

  lemma Sboxe0()
    ensures Sbox(0xe0) == 0xe1 && Sbox(0xe1) == 0xf8 && Sbox(0xe2) == 0x98 && Sbox(0xe3) == 0x11
    ensures Sbox(0xe4) == 0x69 && Sbox(0xe5) == 0xd9 && Sbox(0xe6) == 0x8e && Sbox(0xe7) == 0x94
  {
    var t := SboxRow(14);
    hide SboxRow;
  }

  lemma Sube0()
    ensures Sub(0xe0) == 0xe1 && Sub(0xe1) == 0xf8 && Sub(0xe2) == 0x98 && Sub(0xe3) == 0x11
    ensures Sub(0xe4) == 0x69 && Sub(0xe5) == 0xd9 && Sub(0xe6) == 0x8e && Sub(0xe7) == 0x94
  {
    hide Sub, Sbox;
    Sboxe0();
    SubIs(0xe0, 0xe0, 0xe1, 0xe1); SubIs(0xe1, 0xe1, 0xf8, 0xf8); SubIs(0xe2, 0xe2, 0x98, 0x98); SubIs(0xe3, 0xe3, 0x11, 0x11);
    SubIs(0xe4, 0xe4, 0x69, 0x69); SubIs(0xe5, 0xe5, 0xd9, 0xd9); SubIs(0xe6, 0xe6, 0x8e, 0x8e); SubIs(0xe7, 0xe7, 0x94, 0x94);
  }

  lemma Sboxe8()
    ensures Sbox(0xe8) == 0x9b && Sbox(0xe9) == 0x1e && Sbox(0xea) == 0x87 && Sbox(0xeb) == 0xe9
    ensures Sbox(0xec) == 0xce && Sbox(0xed) == 0x55 && Sbox(0xee) == 0x28 && Sbox(0xef) == 0xdf
  {
    var t := SboxRow(14);
    hide SboxRow;
  }

  lemma Sube8()
    ensures Sub(0xe8) == 0x9b && Sub(0xe9) == 0x1e && Sub(0xea) == 0x87 && Sub(0xeb) == 0xe9
    ensures Sub(0xec) == 0xce && Sub(0xed) == 0x55 && Sub(0xee) == 0x28 && Sub(0xef) == 0xdf
  {
    hide Sub, Sbox;
    Sboxe8();
    SubIs(0xe8, 0xe8, 0x9b, 0x9b); SubIs(0xe9, 0xe9, 0x1e, 0x1e); SubIs(0xea, 0xea, 0x87, 0x87); SubIs(0xeb, 0xeb, 0xe9, 0xe9);
    SubIs(0xec, 0xec, 0xce, 0xce); SubIs(0xed, 0xed, 0x55, 0x55); SubIs(0xee, 0xee, 0x28, 0x28); SubIs(0xef, 0xef, 0xdf, 0xdf);
  }

  lemma Sboxf0()
    ensures Sbox(0xf0) == 0x8c && Sbox(0xf1) == 0xa1 && Sbox(0xf2) == 0x89 && Sbox(0xf3) == 0x0d
    ensures Sbox(0xf4) == 0xbf && Sbox(0xf5) == 0xe6 && Sbox(0xf6) == 0x42 && Sbox(0xf7) == 0x68
  {
    var t := SboxRow(15);
    hide SboxRow;
  }

  lemma Subf0()
    ensures Sub(0xf0) == 0x8c && Sub(0xf1) == 0xa1 && Sub(0xf2) == 0x89 && Sub(0xf3) == 0x0d
    ensures Sub(0xf4) == 0xbf && Sub(0xf5) == 0xe6 && Sub(0xf6) == 0x42 && Sub(0xf7) == 0x68
  {
    hide Sub, Sbox;
    Sboxf0();
    SubIs(0xf0, 0xf0, 0x8c, 0x8c); SubIs(0xf1, 0xf1, 0xa1, 0xa1); SubIs(0xf2, 0xf2, 0x89, 0x89); SubIs(0xf3, 0xf3, 0x0d, 0x0d);
    SubIs(0xf4, 0xf4, 0xbf, 0xbf); SubIs(0xf5, 0xf5, 0xe6, 0xe6); SubIs(0xf6, 0xf6, 0x42, 0x42); SubIs(0xf7, 0xf7, 0x68, 0x68);
  }

  lemma Sboxf8()
    ensures Sbox(0xf8) == 0x41 && Sbox(0xf9) == 0x99 && Sbox(0xfa) == 0x2d && Sbox(0xfb) == 0x0f
    ensures Sbox(0xfc) == 0xb0 && Sbox(0xfd) == 0x54 && Sbox(0xfe) == 0xbb && Sbox(0xff) == 0x16
  {
    var t := SboxRow(15);
    hide SboxRow;
  }

  lemma Subf8()
    ensures Sub(0xf8) == 0x41 && Sub(0xf9) == 0x99 && Sub(0xfa) == 0x2d && Sub(0xfb) == 0x0f
    ensures Sub(0xfc) == 0xb0 && Sub(0xfd) == 0x54 && Sub(0xfe) == 0xbb && Sub(0xff) == 0x16
  {
    hide Sub, Sbox;
    Sboxf8();
    SubIs(0xf8, 0xf8, 0x41, 0x41); SubIs(0xf9, 0xf9, 0x99, 0x99); SubIs(0xfa, 0xfa, 0x2d, 0x2d); SubIs(0xfb, 0xfb, 0x0f, 0x0f);
    SubIs(0xfc, 0xfc, 0xb0, 0xb0); SubIs(0xfd, 0xfd, 0x54, 0x54); SubIs(0xfe, 0xfe, 0xbb, 0xbb); SubIs(0xff, 0xff, 0x16, 0x16);
  }
}
