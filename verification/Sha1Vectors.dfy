/**
 The one-block example for SHA-1, the digest of "abc", round by round.  It fixes constants, rotations
 and byte order outright.
 */
module Sha1Vectors {
  import opened Sha1Spec

  // ---- The message schedule ----

  function W0(n: nat): bv32 {
    if n == 0 then 0x61626380
    else if n == 1 then 0x00000000
    else if n == 2 then 0x00000000
    else if n == 3 then 0x00000000
    else if n == 4 then 0x00000000
    else if n == 5 then 0x00000000
    else if n == 6 then 0x00000000
    else if n == 7 then 0x00000000
    else if n == 8 then 0x00000000
    else 0x00000000
  }

  function W1(n: nat): bv32 {
    if n == 10 then 0x00000000
    else if n == 11 then 0x00000000
    else if n == 12 then 0x00000000
    else if n == 13 then 0x00000000
    else if n == 14 then 0x00000000
    else if n == 15 then 0x00000018
    else if n == 16 then 0xc2c4c700
    else if n == 17 then 0x00000000
    else if n == 18 then 0x00000030
    else 0x85898e01
  }

  function W2(n: nat): bv32 {
    if n == 20 then 0x00000000
    else if n == 21 then 0x00000060
    else if n == 22 then 0x0b131c03
    else if n == 23 then 0x00000030
    else if n == 24 then 0x85898ec1
    else if n == 25 then 0x16263806
    else if n == 26 then 0x00000000
    else if n == 27 then 0x00000180
    else if n == 28 then 0x2c4c700c
    else 0x000000f0
  }

  function W3(n: nat): bv32 {
    if n == 30 then 0x93afb507
    else if n == 31 then 0x5898e048
    else if n == 32 then 0x8e9a9202
    else if n == 33 then 0x00000600
    else if n == 34 then 0xb131c0f0
    else if n == 35 then 0x16263bc6
    else if n == 36 then 0x4ebed41e
    else if n == 37 then 0x626380a1
    else if n == 38 then 0x16263806
    else 0x000018c0
  }

  function W4(n: nat): bv32 {
    if n == 40 then 0xd2e138c4
    else if n == 41 then 0x00000f00
    else if n == 42 then 0x3afb5079
    else if n == 43 then 0x898e04e5
    else if n == 44 then 0xe2ba3c2b
    else if n == 45 then 0x000060c0
    else if n == 46 then 0x053a37cd
    else if n == 47 then 0x74458547
    else if n == 48 then 0xda9415ed
    else 0x26380a16
  }

  function W5(n: nat): bv32 {
    if n == 50 then 0x626383a1
    else if n == 51 then 0x4ebf54de
    else if n == 52 then 0x3835b44b
    else if n == 53 then 0x0000f600
    else if n == 54 then 0x1e84c7a3
    else if n == 55 then 0x98e04d98
    else if n == 56 then 0x651d16a0
    else if n == 57 then 0x62658ca1
    else if n == 58 then 0x458544d6
    else 0x44584cb7
  }

  function W6(n: nat): bv32 {
    if n == 60 then 0x7ba06619
    else if n == 61 then 0x6380aea2
    else if n == 62 then 0x0ae55269
    else if n == 63 then 0x627b49a1
    else if n == 64 then 0x7cd45c9d
    else if n == 65 then 0x000f0000
    else if n == 66 then 0xfb50753a
    else if n == 67 then 0xec6765e8
    else if n == 68 then 0xba3c2be2
    else 0x0060c000
  }

  function W7(n: nat): bv32 {
    if n == 70 then 0x3a37cd05
    else if n == 71 then 0x458546f4
    else if n == 72 then 0xb8599dd6
    else if n == 73 then 0x380a1a26
    else if n == 74 then 0x01e02203
    else if n == 75 then 0xe7cc3456
    else if n == 76 then 0xe6e60b69
    else if n == 77 then 0x00f60a00
    else if n == 78 then 0x5795ef4f
    else 0x822e0879
  }

  function W(n: nat): bv32 {
    if n < 10 then W0(n)
    else if n < 20 then W1(n)
    else if n < 30 then W2(n)
    else if n < 40 then W3(n)
    else if n < 50 then W4(n)
    else if n < 60 then W5(n)
    else if n < 70 then W6(n)
    else W7(n)
  }

  // ---- The rounds ----

  function H0(n: nat): Hash {
    if n == 0 then Hash(0x67452301, 0xefcdab89, 0x98badcfe, 0x10325476, 0xc3d2e1f0)
    else if n == 1 then Hash(0x0116fc33, 0x67452301, 0x7bf36ae2, 0x98badcfe, 0x10325476)
    else if n == 2 then Hash(0x8990536d, 0x0116fc33, 0x59d148c0, 0x7bf36ae2, 0x98badcfe)
    else if n == 3 then Hash(0xa1390f08, 0x8990536d, 0xc045bf0c, 0x59d148c0, 0x7bf36ae2)
    else if n == 4 then Hash(0xcdd8e11b, 0xa1390f08, 0x626414db, 0xc045bf0c, 0x59d148c0)
    else if n == 5 then Hash(0xcfd499de, 0xcdd8e11b, 0x284e43c2, 0x626414db, 0xc045bf0c)
    else if n == 6 then Hash(0x3fc7ca40, 0xcfd499de, 0xf3763846, 0x284e43c2, 0x626414db)
    else if n == 7 then Hash(0x993e30c1, 0x3fc7ca40, 0xb3f52677, 0xf3763846, 0x284e43c2)
    else if n == 8 then Hash(0x9e8c07d4, 0x993e30c1, 0x0ff1f290, 0xb3f52677, 0xf3763846)
    else Hash(0x4b6ae328, 0x9e8c07d4, 0x664f8c30, 0x0ff1f290, 0xb3f52677)
  }

  function H1(n: nat): Hash {
    if n == 10 then Hash(0x8351f929, 0x4b6ae328, 0x27a301f5, 0x664f8c30, 0x0ff1f290)
    else if n == 11 then Hash(0xfbda9e89, 0x8351f929, 0x12dab8ca, 0x27a301f5, 0x664f8c30)
    else if n == 12 then Hash(0x63188fe4, 0xfbda9e89, 0x60d47e4a, 0x12dab8ca, 0x27a301f5)
    else if n == 13 then Hash(0x4607b664, 0x63188fe4, 0x7ef6a7a2, 0x60d47e4a, 0x12dab8ca)
    else if n == 14 then Hash(0x9128f695, 0x4607b664, 0x18c623f9, 0x7ef6a7a2, 0x60d47e4a)
    else if n == 15 then Hash(0x196bee77, 0x9128f695, 0x1181ed99, 0x18c623f9, 0x7ef6a7a2)
    else if n == 16 then Hash(0x20bdd62f, 0x196bee77, 0x644a3da5, 0x1181ed99, 0x18c623f9)
    else if n == 17 then Hash(0x4e925823, 0x20bdd62f, 0xc65afb9d, 0x644a3da5, 0x1181ed99)
    else if n == 18 then Hash(0x82aa6728, 0x4e925823, 0xc82f758b, 0xc65afb9d, 0x644a3da5)
    else Hash(0xdc64901d, 0x82aa6728, 0xd3a49608, 0xc82f758b, 0xc65afb9d)
  }

  function H2(n: nat): Hash {
    if n == 20 then Hash(0xfd9e1d7d, 0xdc64901d, 0x20aa99ca, 0xd3a49608, 0xc82f758b)
    else if n == 21 then Hash(0x1a37b0ca, 0xfd9e1d7d, 0x77192407, 0x20aa99ca, 0xd3a49608)
    else if n == 22 then Hash(0x33a23bfc, 0x1a37b0ca, 0x7f67875f, 0x77192407, 0x20aa99ca)
    else if n == 23 then Hash(0x21283486, 0x33a23bfc, 0x868dec32, 0x7f67875f, 0x77192407)
    else if n == 24 then Hash(0xd541f12d, 0x21283486, 0x0ce88eff, 0x868dec32, 0x7f67875f)
    else if n == 25 then Hash(0xc7567dc6, 0xd541f12d, 0x884a0d21, 0x0ce88eff, 0x868dec32)
    else if n == 26 then Hash(0x48413ba4, 0xc7567dc6, 0x75507c4b, 0x884a0d21, 0x0ce88eff)
    else if n == 27 then Hash(0xbe35fbd5, 0x48413ba4, 0xb1d59f71, 0x75507c4b, 0x884a0d21)
    else if n == 28 then Hash(0x4aa84d97, 0xbe35fbd5, 0x12104ee9, 0xb1d59f71, 0x75507c4b)
    else Hash(0x8370b52e, 0x4aa84d97, 0x6f8d7ef5, 0x12104ee9, 0xb1d59f71)
  }

  function H3(n: nat): Hash {
    if n == 30 then Hash(0xc5fbaf5d, 0x8370b52e, 0xd2aa1365, 0x6f8d7ef5, 0x12104ee9)
    else if n == 31 then Hash(0x1267b407, 0xc5fbaf5d, 0xa0dc2d4b, 0xd2aa1365, 0x6f8d7ef5)
    else if n == 32 then Hash(0x3b845d33, 0x1267b407, 0x717eebd7, 0xa0dc2d4b, 0xd2aa1365)
    else if n == 33 then Hash(0x046faa0a, 0x3b845d33, 0xc499ed01, 0x717eebd7, 0xa0dc2d4b)
    else if n == 34 then Hash(0x2c0ebc11, 0x046faa0a, 0xcee1174c, 0xc499ed01, 0x717eebd7)
    else if n == 35 then Hash(0x21796ad4, 0x2c0ebc11, 0x811bea82, 0xcee1174c, 0xc499ed01)
    else if n == 36 then Hash(0xdcbbb0cb, 0x21796ad4, 0x4b03af04, 0x811bea82, 0xcee1174c)
    else if n == 37 then Hash(0x0f511fd8, 0xdcbbb0cb, 0x085e5ab5, 0x4b03af04, 0x811bea82)
    else if n == 38 then Hash(0xdc63973f, 0x0f511fd8, 0xf72eec32, 0x085e5ab5, 0x4b03af04)
    else Hash(0x4c986405, 0xdc63973f, 0x03d447f6, 0xf72eec32, 0x085e5ab5)
  }

  function H4(n: nat): Hash {
    if n == 40 then Hash(0x32de1cba, 0x4c986405, 0xf718e5cf, 0x03d447f6, 0xf72eec32)
    else if n == 41 then Hash(0xfc87dedf, 0x32de1cba, 0x53261901, 0xf718e5cf, 0x03d447f6)
    else if n == 42 then Hash(0x970a0d5c, 0xfc87dedf, 0x8cb7872e, 0x53261901, 0xf718e5cf)
    else if n == 43 then Hash(0x7f193dc5, 0x970a0d5c, 0xff21f7b7, 0x8cb7872e, 0x53261901)
    else if n == 44 then Hash(0xee1b1aaf, 0x7f193dc5, 0x25c28357, 0xff21f7b7, 0x8cb7872e)
    else if n == 45 then Hash(0x40f28e09, 0xee1b1aaf, 0x5fc64f71, 0x25c28357, 0xff21f7b7)
    else if n == 46 then Hash(0x1c51e1f2, 0x40f28e09, 0xfb86c6ab, 0x5fc64f71, 0x25c28357)
    else if n == 47 then Hash(0xa01b846c, 0x1c51e1f2, 0x503ca382, 0xfb86c6ab, 0x5fc64f71)
    else if n == 48 then Hash(0xbead02ca, 0xa01b846c, 0x8714787c, 0x503ca382, 0xfb86c6ab)
    else Hash(0xbaf39337, 0xbead02ca, 0x2806e11b, 0x8714787c, 0x503ca382)
  }

  function H5(n: nat): Hash {
    if n == 50 then Hash(0x120731c5, 0xbaf39337, 0xafab40b2, 0x2806e11b, 0x8714787c)
    else if n == 51 then Hash(0x641db2ce, 0x120731c5, 0xeebce4cd, 0xafab40b2, 0x2806e11b)
    else if n == 52 then Hash(0x3847ad66, 0x641db2ce, 0x4481cc71, 0xeebce4cd, 0xafab40b2)
    else if n == 53 then Hash(0xe490436d, 0x3847ad66, 0x99076cb3, 0x4481cc71, 0xeebce4cd)
    else if n == 54 then Hash(0x27e9f1d8, 0xe490436d, 0x8e11eb59, 0x99076cb3, 0x4481cc71)
    else if n == 55 then Hash(0x7b71f76d, 0x27e9f1d8, 0x792410db, 0x8e11eb59, 0x99076cb3)
    else if n == 56 then Hash(0x5e6456af, 0x7b71f76d, 0x09fa7c76, 0x792410db, 0x8e11eb59)
    else if n == 57 then Hash(0xc846093f, 0x5e6456af, 0x5edc7ddb, 0x09fa7c76, 0x792410db)
    else if n == 58 then Hash(0xd262ff50, 0xc846093f, 0xd79915ab, 0x5edc7ddb, 0x09fa7c76)
    else Hash(0x09d785fd, 0xd262ff50, 0xf211824f, 0xd79915ab, 0x5edc7ddb)
  }

  function H6(n: nat): Hash {
    if n == 60 then Hash(0x3f52de5a, 0x09d785fd, 0x3498bfd4, 0xf211824f, 0xd79915ab)
    else if n == 61 then Hash(0xd756c147, 0x3f52de5a, 0x4275e17f, 0x3498bfd4, 0xf211824f)
    else if n == 62 then Hash(0x548c9cb2, 0xd756c147, 0x8fd4b796, 0x4275e17f, 0x3498bfd4)
    else if n == 63 then Hash(0xb66c020b, 0x548c9cb2, 0xf5d5b051, 0x8fd4b796, 0x4275e17f)
    else if n == 64 then Hash(0x6b61c9e1, 0xb66c020b, 0x9523272c, 0xf5d5b051, 0x8fd4b796)
    else if n == 65 then Hash(0x19dfa7ac, 0x6b61c9e1, 0xed9b0082, 0x9523272c, 0xf5d5b051)
    else if n == 66 then Hash(0x101655f9, 0x19dfa7ac, 0x5ad87278, 0xed9b0082, 0x9523272c)
    else if n == 67 then Hash(0x0c3df2b4, 0x101655f9, 0x0677e9eb, 0x5ad87278, 0xed9b0082)
    else if n == 68 then Hash(0x78dd4d2b, 0x0c3df2b4, 0x4405957e, 0x0677e9eb, 0x5ad87278)
    else Hash(0x497093c0, 0x78dd4d2b, 0x030f7cad, 0x4405957e, 0x0677e9eb)
  }

  function H7(n: nat): Hash {
    if n == 70 then Hash(0x3f2588c2, 0x497093c0, 0xde37534a, 0x030f7cad, 0x4405957e)
    else if n == 71 then Hash(0xc199f8c7, 0x3f2588c2, 0x125c24f0, 0xde37534a, 0x030f7cad)
    else if n == 72 then Hash(0x39859de7, 0xc199f8c7, 0x8fc96230, 0x125c24f0, 0xde37534a)
    else if n == 73 then Hash(0xedb42de4, 0x39859de7, 0xf0667e31, 0x8fc96230, 0x125c24f0)
    else if n == 74 then Hash(0x11793f6f, 0xedb42de4, 0xce616779, 0xf0667e31, 0x8fc96230)
    else if n == 75 then Hash(0x5ee76897, 0x11793f6f, 0x3b6d0b79, 0xce616779, 0xf0667e31)
    else if n == 76 then Hash(0x63f7dab7, 0x5ee76897, 0xc45e4fdb, 0x3b6d0b79, 0xce616779)
    else if n == 77 then Hash(0xa079b7d9, 0x63f7dab7, 0xd7b9da25, 0xc45e4fdb, 0x3b6d0b79)
    else if n == 78 then Hash(0x860d21cc, 0xa079b7d9, 0xd8fdf6ad, 0xd7b9da25, 0xc45e4fdb)
    else Hash(0x5738d5e1, 0x860d21cc, 0x681e6df6, 0xd8fdf6ad, 0xd7b9da25)
  }

  function H8(n: nat): Hash {
    Hash(0x42541b35, 0x5738d5e1, 0x21834873, 0x681e6df6, 0xd8fdf6ad)
  }

  function H(n: nat): Hash {
    if n < 10 then H0(n)
    else if n < 20 then H1(n)
    else if n < 30 then H2(n)
    else if n < 40 then H3(n)
    else if n < 50 then H4(n)
    else if n < 60 then H5(n)
    else if n < 70 then H6(n)
    else if n < 80 then H7(n)
    else H8(n)
  }

  // Round n leads from one row of the table to the next.
  predicate Turns(n: nat) {
    Round(H(n), n, W(n)) == H(n + 1)
  }

  // Word n is mixed from the four before it.
  predicate Mixes(n: nat) {
    n >= 16 && Mix(W(n - 3), W(n - 8), W(n - 14), W(n - 16)) == W(n)
  }

  lemma Rounds0()
    ensures Turns(0) && Turns(1) && Turns(2) && Turns(3)
  {
  }

  lemma Rounds1()
    ensures Turns(4) && Turns(5) && Turns(6) && Turns(7)
  {
  }

  lemma Rounds2()
    ensures Turns(8) && Turns(9) && Turns(10) && Turns(11)
  {
  }

  lemma Rounds3()
    ensures Turns(12) && Turns(13) && Turns(14) && Turns(15)
  {
  }

  lemma Rounds4()
    ensures Turns(16) && Turns(17) && Turns(18) && Turns(19)
  {
  }

  lemma Rounds5()
    ensures Turns(20) && Turns(21) && Turns(22) && Turns(23)
  {
  }

  lemma Rounds6()
    ensures Turns(24) && Turns(25) && Turns(26) && Turns(27)
  {
  }

  lemma Rounds7()
    ensures Turns(28) && Turns(29) && Turns(30) && Turns(31)
  {
  }

  lemma Rounds8()
    ensures Turns(32) && Turns(33) && Turns(34) && Turns(35)
  {
  }

  lemma Rounds9()
    ensures Turns(36) && Turns(37) && Turns(38) && Turns(39)
  {
  }

  lemma Rounds10()
    ensures Turns(40) && Turns(41) && Turns(42) && Turns(43)
  {
  }

  lemma Rounds11()
    ensures Turns(44) && Turns(45) && Turns(46) && Turns(47)
  {
  }

  lemma Rounds12()
    ensures Turns(48) && Turns(49) && Turns(50) && Turns(51)
  {
  }

  lemma Rounds13()
    ensures Turns(52) && Turns(53) && Turns(54) && Turns(55)
  {
  }

  lemma Rounds14()
    ensures Turns(56) && Turns(57) && Turns(58) && Turns(59)
  {
  }

  lemma Rounds15()
    ensures Turns(60) && Turns(61) && Turns(62) && Turns(63)
  {
  }

  lemma Rounds16()
    ensures Turns(64) && Turns(65) && Turns(66) && Turns(67)
  {
  }

  lemma Rounds17()
    ensures Turns(68) && Turns(69) && Turns(70) && Turns(71)
  {
  }

  lemma Rounds18()
    ensures Turns(72) && Turns(73) && Turns(74) && Turns(75)
  {
  }

  lemma Rounds19()
    ensures Turns(76) && Turns(77) && Turns(78) && Turns(79)
  {
  }

  lemma Words0()
    ensures Mixes(16) && Mixes(17) && Mixes(18)
  {
  }

  lemma Words1()
    ensures Mixes(19) && Mixes(20) && Mixes(21)
  {
  }

  lemma Words2()
    ensures Mixes(22) && Mixes(23) && Mixes(24)
  {
  }

  lemma Words3()
    ensures Mixes(25) && Mixes(26) && Mixes(27)
  {
  }

  lemma Words4()
    ensures Mixes(28) && Mixes(29) && Mixes(30)
  {
  }

  lemma Words5()
    ensures Mixes(31) && Mixes(32) && Mixes(33)
  {
  }

  lemma Words6()
    ensures Mixes(34) && Mixes(35) && Mixes(36)
  {
  }

  lemma Words7()
    ensures Mixes(37) && Mixes(38) && Mixes(39)
  {
  }

  lemma Words8()
    ensures Mixes(40) && Mixes(41) && Mixes(42)
  {
  }

  lemma Words9()
    ensures Mixes(43) && Mixes(44) && Mixes(45)
  {
  }

  lemma Words10()
    ensures Mixes(46) && Mixes(47) && Mixes(48)
  {
  }

  lemma Words11()
    ensures Mixes(49) && Mixes(50) && Mixes(51)
  {
  }

  lemma Words12()
    ensures Mixes(52) && Mixes(53) && Mixes(54)
  {
  }

  lemma Words13()
    ensures Mixes(55) && Mixes(56) && Mixes(57)
  {
  }

  lemma Words14()
    ensures Mixes(58) && Mixes(59) && Mixes(60)
  {
  }

  lemma Words15()
    ensures Mixes(61) && Mixes(62) && Mixes(63)
  {
  }

  lemma Words16()
    ensures Mixes(64) && Mixes(65) && Mixes(66)
  {
  }

  lemma Words17()
    ensures Mixes(67) && Mixes(68) && Mixes(69)
  {
  }

  lemma Words18()
    ensures Mixes(70) && Mixes(71) && Mixes(72)
  {
  }

  lemma Words19()
    ensures Mixes(73) && Mixes(74) && Mixes(75)
  {
  }

  lemma Words20()
    ensures Mixes(76) && Mixes(77) && Mixes(78)
  {
  }

  lemma Words21()
    ensures Mixes(79)
  {
  }

  // ---- The whole block ----

  lemma MixedWord(n: nat)
    requires 16 <= n < 80
    ensures Mixes(n)
  {
    hide *;
    if n < 19 { Words0(); }
    else if n < 22 { Words1(); }
    else if n < 25 { Words2(); }
    else if n < 28 { Words3(); }
    else if n < 31 { Words4(); }
    else if n < 34 { Words5(); }
    else if n < 37 { Words6(); }
    else if n < 40 { Words7(); }
    else if n < 43 { Words8(); }
    else if n < 46 { Words9(); }
    else if n < 49 { Words10(); }
    else if n < 52 { Words11(); }
    else if n < 55 { Words12(); }
    else if n < 58 { Words13(); }
    else if n < 61 { Words14(); }
    else if n < 64 { Words15(); }
    else if n < 67 { Words16(); }
    else if n < 70 { Words17(); }
    else if n < 73 { Words18(); }
    else if n < 76 { Words19(); }
    else if n < 79 { Words20(); }
    else { Words21(); }
  }

  lemma OneRound(n: nat)
    requires n < 80
    ensures Turns(n)
  {
    hide *;
    if n < 4 { Rounds0(); }
    else if n < 8 { Rounds1(); }
    else if n < 12 { Rounds2(); }
    else if n < 16 { Rounds3(); }
    else if n < 20 { Rounds4(); }
    else if n < 24 { Rounds5(); }
    else if n < 28 { Rounds6(); }
    else if n < 32 { Rounds7(); }
    else if n < 36 { Rounds8(); }
    else if n < 40 { Rounds9(); }
    else if n < 44 { Rounds10(); }
    else if n < 48 { Rounds11(); }
    else if n < 52 { Rounds12(); }
    else if n < 56 { Rounds13(); }
    else if n < 60 { Rounds14(); }
    else if n < 64 { Rounds15(); }
    else if n < 68 { Rounds16(); }
    else if n < 72 { Rounds17(); }
    else if n < 76 { Rounds18(); }
    else { Rounds19(); }
  }

  function Abc(): seq<bv8> {
    [0x61, 0x62, 0x63]
  }

  // The message is padded to one block: a 1 bit, zeros, and the length of 24 bits.
  lemma AbcPadded()
    ensures |Pad(Abc())| == BLOCK && forall i :: 0 <= i < BLOCK ==>
      Pad(Abc())[i] == if i < 3 then Abc()[i] else if i == 3 then 0x80 else if i == 63 then 24 else 0
  {
    var f := LengthField(24);
    assert PadZeros(3) == 52;
    LengthBytes();
    hide LengthField;
    assert 8 * |Abc()| % TWO64 == 24;
    assert Pad(Abc()) == Abc() + [0x80] + Zeros(52) + f;
  }

  lemma LengthBytes()
    ensures forall i :: 0 <= i < 8 ==> LengthField(24)[i] == if i == 7 then 24 else 0
  {
    hide LengthField;
    assert Byte(24) == 24 && Byte(0) == 0;
    hide Byte;
    forall i | 0 <= i < 8 ensures LengthField(24)[i] == if i == 7 then 24 else 0 { LengthByteAt(i); }
  }

  lemma LengthByteAt(i: nat)
    requires i < 8
    ensures LengthField(24)[i] == Byte(if i == 7 then 24 else 0)
  {
    hide Byte;
    assert ShiftBytes(24, 0) == 24;
    if i < 7 { NothingLeft(7 - i); }
  }

  lemma {:induction false} NothingLeft(k: nat)
    requires k > 0
    ensures ShiftBytes(24, k) == 0
  {
    Zero(k - 1);
    assert ShiftBytes(24, k) == ShiftBytes(0, k - 1);
  }

  lemma {:induction false} Zero(k: nat)
    ensures ShiftBytes(0, k) == 0
  {
    if k > 0 { Zero(k - 1); }
  }

  lemma FirstWord(n: nat)
    requires n < 16
    ensures |Pad(Abc())| == BLOCK && WordAt(Pad(Abc()), n) == W(n)
  {
    AbcPadded();
    hide Pad;
    assert n == 0 || n == 15 || 0 < n < 15;
    if 0 < n < 15 { assert W(n) == 0; }
  }

  lemma {:induction false} ScheduleIs(block: seq<bv8>, n: nat)
    requires n <= 80 && block == Pad(Abc()) && |block| == BLOCK
    ensures forall i :: 0 <= i < n ==> Schedule(block, n)[i] == W(i)
  {
    hide W, Mix, WordAt, Pad;
    if n > 0 {
      ScheduleIs(block, n - 1);
      if n <= 16 { FirstWord(n - 1); } else { MixedWord(n - 1); }
    }
  }

  lemma {:induction false} RoundsAre(ws: seq<bv32>, n: nat)
    requires n <= 80 && |ws| == 80 && forall i :: 0 <= i < 80 ==> ws[i] == W(i)
    ensures Rounds(H(0), ws, n) == H(n)
  {
    hide W, H, Round;
    if n > 0 {
      RoundsAre(ws, n - 1);
      OneRound(n - 1);
    }
  }

  // The digest of "abc" (the example of FIPS 180).
  lemma AbcDigest()
    ensures Digest(Abc()) == [0xa9, 0x99, 0x3e, 0x36, 0x47, 0x06, 0x81, 0x6a, 0xba, 0x3e, 0x25, 0x71, 0x78, 0x50, 0xc2, 0x6c, 0x9c, 0xd0, 0xd8, 0x9d]
  {
    var block := Pad(Abc());
    AbcPadded();
    assert H(0) == Initial();
    OneBlock(block);
    ScheduleIs(block, 80);
    hide W, H, Pad, Schedule, Rounds, Abc;
    RoundsAre(Schedule(block, 80), 80);
    LastSum();
    DigestBytes();
  }

  lemma OneBlock(block: seq<bv8>)
    requires |block| == BLOCK
    ensures Absorb(Initial(), block, 1) == Plus(Initial(), Rounds(Initial(), Schedule(block, 80), 80))
  {
    hide Schedule, Rounds, Plus;
    assert block[BLOCK * 0..BLOCK * 1] == block;
    assert Absorb(Initial(), block, 0) == Initial();
  }

  function Result(): Hash {
    Hash(0xa9993e36, 0x4706816a, 0xba3e2571, 0x7850c26c, 0x9cd0d89d)
  }

  lemma LastSum()
    ensures Plus(Initial(), H(80)) == Result()
  {
  }

  lemma DigestBytes()
    ensures Bytes(Result()) == [0xa9, 0x99, 0x3e, 0x36, 0x47, 0x06, 0x81, 0x6a, 0xba, 0x3e, 0x25, 0x71, 0x78, 0x50, 0xc2, 0x6c, 0x9c, 0xd0, 0xd8, 0x9d]
  {
  }
}
