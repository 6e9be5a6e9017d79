/**
 The example of appendix C.1 of FIPS 197, worked through: the key schedule of 00 01 .. 0f and the
 cipher of 00 11 .. ff.  It fixes the order of the steps, the round keys and the tables outright.
 */
module AesVectors {
  import opened AesTables
  import opened AesField
  import opened Aes
  import opened AesCbc
  import opened AesValues

  // ---- A state by its bytes ----

  function Sixteen(a0: bv8, a1: bv8, a2: bv8, a3: bv8, a4: bv8, a5: bv8, a6: bv8, a7: bv8,
        a8: bv8, a9: bv8, a10: bv8, a11: bv8, a12: bv8, a13: bv8, a14: bv8, a15: bv8): (s: State)
    ensures s[0] == a0 && s[1] == a1 && s[2] == a2 && s[3] == a3 && s[4] == a4 && s[5] == a5 && s[6] == a6 && s[7] == a7
    ensures s[8] == a8 && s[9] == a9 && s[10] == a10 && s[11] == a11 && s[12] == a12 && s[13] == a13 && s[14] == a14 && s[15] == a15
  {
    [a0, a1, a2, a3, a4, a5, a6, a7, a8, a9, a10, a11, a12, a13, a14, a15]
  }

  function RoundWith(s: State, k: State): State {
    XorState(MixColumns(ShiftRows(SubBytes(s))), k)
  }

  function LastWith(s: State, k: State): State {
    XorState(ShiftRows(SubBytes(s)), k)
  }

  predicate Agree(s: State, t: State, k: nat)
    requires k < 16
  {
    s[k] == t[k]
  }

  lemma AllAgree(s: State, t: State)
    requires Agree(s, t, 0) && Agree(s, t, 1) && Agree(s, t, 2) && Agree(s, t, 3) && Agree(s, t, 4) && Agree(s, t, 5) && Agree(s, t, 6) && Agree(s, t, 7)
    requires Agree(s, t, 8) && Agree(s, t, 9) && Agree(s, t, 10) && Agree(s, t, 11) && Agree(s, t, 12) && Agree(s, t, 13) && Agree(s, t, 14) && Agree(s, t, 15)
    ensures s == t
  {
    SixteenEqual(s, t);
  }

  // What byte k of a round has to be, from the four bytes that ShiftRows brings together.
  predicate MixesTo(s: State, key: State, r: State, k: nat, a: nat, b: nat, c: nat, d: nat)
    requires k < 16 && a < 16 && b < 16 && c < 16 && d < 16
  {
    r[k] == Xor(Mixed(Sub(s[a]), Sub(s[b]), Sub(s[c]), Sub(s[d])), key[k])
  }

  predicate Gathers(k: nat, a: nat, b: nat, c: nat, d: nat)
    requires k < 16
  {
    a == 5 * k % 16 && b == 5 * NextRow(k, 1) % 16 && c == 5 * NextRow(k, 2) % 16 && d == 5 * NextRow(k, 3) % 16
  }

  lemma Gathering()
    ensures Gathers(0, 0, 5, 10, 15) && Gathers(1, 5, 10, 15, 0) && Gathers(2, 10, 15, 0, 5) && Gathers(3, 15, 0, 5, 10)
    ensures Gathers(4, 4, 9, 14, 3) && Gathers(5, 9, 14, 3, 4) && Gathers(6, 14, 3, 4, 9) && Gathers(7, 3, 4, 9, 14)
    ensures Gathers(8, 8, 13, 2, 7) && Gathers(9, 13, 2, 7, 8) && Gathers(10, 2, 7, 8, 13) && Gathers(11, 7, 8, 13, 2)
    ensures Gathers(12, 12, 1, 6, 11) && Gathers(13, 1, 6, 11, 12) && Gathers(14, 6, 11, 12, 1) && Gathers(15, 11, 12, 1, 6)
  {
    hide NextRow;
    RowsOfColumn(0);
    RowsOfColumn(1);
    RowsOfColumn(2);
    RowsOfColumn(3);
  }

  // One byte of a round: the column that ShiftRows brings together, substituted and mixed.
  lemma RoundByte(s: State, key: State, r: State, k: nat, a: nat, b: nat, c: nat, d: nat)
    requires k < 16 && a < 16 && b < 16 && c < 16 && d < 16 && Gathers(k, a, b, c, d)
    requires MixesTo(s, key, r, k, a, b, c, d)
    ensures Agree(RoundWith(s, key), r, k)
  {
    hide Xor, Mixed, Sub;
  }

  lemma LastByte(s: State, key: State, r: State, k: nat, a: nat)
    requires k < 16 && a == 5 * k % 16 && r[k] == Xor(Sub(s[a]), key[k])
    ensures Agree(LastWith(s, key), r, k)
  {
    hide Xor, Sub;
  }

  lemma RoundColumn0(s: State, key: State, r: State)
    requires MixesTo(s, key, r, 0, 0, 5, 10, 15) && MixesTo(s, key, r, 1, 5, 10, 15, 0)
    requires MixesTo(s, key, r, 2, 10, 15, 0, 5) && MixesTo(s, key, r, 3, 15, 0, 5, 10)
    ensures Agree(RoundWith(s, key), r, 0) && Agree(RoundWith(s, key), r, 1) && Agree(RoundWith(s, key), r, 2) && Agree(RoundWith(s, key), r, 3)
  {
    hide MixesTo, RoundWith, Agree, Gathers;
    Gathering();
    RoundByte(s, key, r, 0, 0, 5, 10, 15);
    RoundByte(s, key, r, 1, 5, 10, 15, 0);
    RoundByte(s, key, r, 2, 10, 15, 0, 5);
    RoundByte(s, key, r, 3, 15, 0, 5, 10);
  }

  lemma RoundColumn1(s: State, key: State, r: State)
    requires MixesTo(s, key, r, 4, 4, 9, 14, 3) && MixesTo(s, key, r, 5, 9, 14, 3, 4)
    requires MixesTo(s, key, r, 6, 14, 3, 4, 9) && MixesTo(s, key, r, 7, 3, 4, 9, 14)
    ensures Agree(RoundWith(s, key), r, 4) && Agree(RoundWith(s, key), r, 5) && Agree(RoundWith(s, key), r, 6) && Agree(RoundWith(s, key), r, 7)
  {
    hide MixesTo, RoundWith, Agree, Gathers;
    Gathering();
    RoundByte(s, key, r, 4, 4, 9, 14, 3);
    RoundByte(s, key, r, 5, 9, 14, 3, 4);
    RoundByte(s, key, r, 6, 14, 3, 4, 9);
    RoundByte(s, key, r, 7, 3, 4, 9, 14);
  }

  lemma RoundColumn2(s: State, key: State, r: State)
    requires MixesTo(s, key, r, 8, 8, 13, 2, 7) && MixesTo(s, key, r, 9, 13, 2, 7, 8)
    requires MixesTo(s, key, r, 10, 2, 7, 8, 13) && MixesTo(s, key, r, 11, 7, 8, 13, 2)
    ensures Agree(RoundWith(s, key), r, 8) && Agree(RoundWith(s, key), r, 9) && Agree(RoundWith(s, key), r, 10) && Agree(RoundWith(s, key), r, 11)
  {
    hide MixesTo, RoundWith, Agree, Gathers;
    Gathering();
    RoundByte(s, key, r, 8, 8, 13, 2, 7);
    RoundByte(s, key, r, 9, 13, 2, 7, 8);
    RoundByte(s, key, r, 10, 2, 7, 8, 13);
    RoundByte(s, key, r, 11, 7, 8, 13, 2);
  }

  lemma RoundColumn3(s: State, key: State, r: State)
    requires MixesTo(s, key, r, 12, 12, 1, 6, 11) && MixesTo(s, key, r, 13, 1, 6, 11, 12)
    requires MixesTo(s, key, r, 14, 6, 11, 12, 1) && MixesTo(s, key, r, 15, 11, 12, 1, 6)
    ensures Agree(RoundWith(s, key), r, 12) && Agree(RoundWith(s, key), r, 13) && Agree(RoundWith(s, key), r, 14) && Agree(RoundWith(s, key), r, 15)
  {
    hide MixesTo, RoundWith, Agree, Gathers;
    Gathering();
    RoundByte(s, key, r, 12, 12, 1, 6, 11);
    RoundByte(s, key, r, 13, 1, 6, 11, 12);
    RoundByte(s, key, r, 14, 6, 11, 12, 1);
    RoundByte(s, key, r, 15, 11, 12, 1, 6);
  }

  // The sixteen bytes of a round.
  lemma RoundBytes(s: State, key: State, r: State)
    requires MixesTo(s, key, r, 0, 0, 5, 10, 15) && MixesTo(s, key, r, 1, 5, 10, 15, 0)
    requires MixesTo(s, key, r, 2, 10, 15, 0, 5) && MixesTo(s, key, r, 3, 15, 0, 5, 10)
    requires MixesTo(s, key, r, 4, 4, 9, 14, 3) && MixesTo(s, key, r, 5, 9, 14, 3, 4)
    requires MixesTo(s, key, r, 6, 14, 3, 4, 9) && MixesTo(s, key, r, 7, 3, 4, 9, 14)
    requires MixesTo(s, key, r, 8, 8, 13, 2, 7) && MixesTo(s, key, r, 9, 13, 2, 7, 8)
    requires MixesTo(s, key, r, 10, 2, 7, 8, 13) && MixesTo(s, key, r, 11, 7, 8, 13, 2)
    requires MixesTo(s, key, r, 12, 12, 1, 6, 11) && MixesTo(s, key, r, 13, 1, 6, 11, 12)
    requires MixesTo(s, key, r, 14, 6, 11, 12, 1) && MixesTo(s, key, r, 15, 11, 12, 1, 6)
    ensures RoundWith(s, key) == r
  {
    hide MixesTo, RoundWith, Agree;
    RoundColumn0(s, key, r);
    RoundColumn1(s, key, r);
    RoundColumn2(s, key, r);
    RoundColumn3(s, key, r);
    AllAgree(RoundWith(s, key), r);
  }

  lemma LastBytes(s: State, key: State, r: State)
    requires r[0] == Xor(Sub(s[0]), key[0]) && r[1] == Xor(Sub(s[5]), key[1]) && r[2] == Xor(Sub(s[10]), key[2]) && r[3] == Xor(Sub(s[15]), key[3])
    requires r[4] == Xor(Sub(s[4]), key[4]) && r[5] == Xor(Sub(s[9]), key[5]) && r[6] == Xor(Sub(s[14]), key[6]) && r[7] == Xor(Sub(s[3]), key[7])
    requires r[8] == Xor(Sub(s[8]), key[8]) && r[9] == Xor(Sub(s[13]), key[9]) && r[10] == Xor(Sub(s[2]), key[10]) && r[11] == Xor(Sub(s[7]), key[11])
    requires r[12] == Xor(Sub(s[12]), key[12]) && r[13] == Xor(Sub(s[1]), key[13]) && r[14] == Xor(Sub(s[6]), key[14]) && r[15] == Xor(Sub(s[11]), key[15])
    ensures LastWith(s, key) == r
  {
    hide Xor, Sub, LastWith, Agree;
    LastByte(s, key, r, 0, 0);
    LastByte(s, key, r, 1, 5);
    LastByte(s, key, r, 2, 10);
    LastByte(s, key, r, 3, 15);
    LastByte(s, key, r, 4, 4);
    LastByte(s, key, r, 5, 9);
    LastByte(s, key, r, 6, 14);
    LastByte(s, key, r, 7, 3);
    LastByte(s, key, r, 8, 8);
    LastByte(s, key, r, 9, 13);
    LastByte(s, key, r, 10, 2);
    LastByte(s, key, r, 11, 7);
    LastByte(s, key, r, 12, 12);
    LastByte(s, key, r, 13, 1);
    LastByte(s, key, r, 14, 6);
    LastByte(s, key, r, 15, 11);
    AllAgree(LastWith(s, key), r);
  }

  // ---- The key schedule ----

  function Key(n: nat): State
    requires n <= ROUNDS
  {
    if n == 0 then Sixteen(0x00, 0x01, 0x02, 0x03, 0x04, 0x05, 0x06, 0x07, 0x08, 0x09, 0x0a, 0x0b, 0x0c, 0x0d, 0x0e, 0x0f)
    else if n == 1 then Sixteen(0xd6, 0xaa, 0x74, 0xfd, 0xd2, 0xaf, 0x72, 0xfa, 0xda, 0xa6, 0x78, 0xf1, 0xd6, 0xab, 0x76, 0xfe)
    else if n == 2 then Sixteen(0xb6, 0x92, 0xcf, 0x0b, 0x64, 0x3d, 0xbd, 0xf1, 0xbe, 0x9b, 0xc5, 0x00, 0x68, 0x30, 0xb3, 0xfe)
    else if n == 3 then Sixteen(0xb6, 0xff, 0x74, 0x4e, 0xd2, 0xc2, 0xc9, 0xbf, 0x6c, 0x59, 0x0c, 0xbf, 0x04, 0x69, 0xbf, 0x41)
    else if n == 4 then Sixteen(0x47, 0xf7, 0xf7, 0xbc, 0x95, 0x35, 0x3e, 0x03, 0xf9, 0x6c, 0x32, 0xbc, 0xfd, 0x05, 0x8d, 0xfd)
    else if n == 5 then Sixteen(0x3c, 0xaa, 0xa3, 0xe8, 0xa9, 0x9f, 0x9d, 0xeb, 0x50, 0xf3, 0xaf, 0x57, 0xad, 0xf6, 0x22, 0xaa)
    else if n == 6 then Sixteen(0x5e, 0x39, 0x0f, 0x7d, 0xf7, 0xa6, 0x92, 0x96, 0xa7, 0x55, 0x3d, 0xc1, 0x0a, 0xa3, 0x1f, 0x6b)
    else if n == 7 then Sixteen(0x14, 0xf9, 0x70, 0x1a, 0xe3, 0x5f, 0xe2, 0x8c, 0x44, 0x0a, 0xdf, 0x4d, 0x4e, 0xa9, 0xc0, 0x26)
    else if n == 8 then Sixteen(0x47, 0x43, 0x87, 0x35, 0xa4, 0x1c, 0x65, 0xb9, 0xe0, 0x16, 0xba, 0xf4, 0xae, 0xbf, 0x7a, 0xd2)
    else if n == 9 then Sixteen(0x54, 0x99, 0x32, 0xd1, 0xf0, 0x85, 0x57, 0x68, 0x10, 0x93, 0xed, 0x9c, 0xbe, 0x2c, 0x97, 0x4e)
    else Sixteen(0x13, 0x11, 0x1d, 0x7f, 0xe3, 0x94, 0x4a, 0x17, 0xf3, 0x07, 0xa7, 0x8b, 0x4d, 0x2b, 0x30, 0xc5)
  }

  lemma ScheduleAt(w: seq<bv8>, key: State, i: nat)
    requires KeySchedule(w, key) && 4 <= i < 44
    ensures |w| == 176 && ScheduleStep(w, i)
  {
    hide ScheduleStep;
  }

  // The bytes of one round key and the next, where they stand.
  lemma KeyByte(w: RoundKeys, n: nat, j: nat)
    requires n <= ROUNDS && j < 16
    ensures RoundKey(w, n)[j] == w[16 * n + j]
  {
  }

  lemma FirstWordIs(w: RoundKeys, key: State, n: nat, r: State)
    requires KeySchedule(w, key) && n < ROUNDS
    requires var k := RoundKey(w, n);
      && r[0] == Xor(k[0], Xor(Sub(k[13]), Rcon(n + 1))) && r[1] == Xor(k[1], Sub(k[14]))
      && r[2] == Xor(k[2], Sub(k[15])) && r[3] == Xor(k[3], Sub(k[12]))
    ensures var x := RoundKey(w, n + 1); Agree(x, r, 0) && Agree(x, r, 1) && Agree(x, r, 2) && Agree(x, r, 3)
  {
    hide Sub, Xor, Rcon;
    var i := 4 * (n + 1);
    ScheduleAt(w, key, i);
    hide KeySchedule;
    assert i % 4 == 0 && i / 4 == n + 1;
  }

  lemma LaterWordIs(w: RoundKeys, key: State, n: nat, m: nat, r: State)
    requires KeySchedule(w, key) && n < ROUNDS && 1 <= m < 4
    requires var x, k, c := RoundKey(w, n + 1), RoundKey(w, n), 4 * m;
      && Agree(x, r, c - 4) && Agree(x, r, c - 3) && Agree(x, r, c - 2) && Agree(x, r, c - 1)
      && r[c] == Xor(k[c], r[c - 4]) && r[c + 1] == Xor(k[c + 1], r[c - 3])
      && r[c + 2] == Xor(k[c + 2], r[c - 2]) && r[c + 3] == Xor(k[c + 3], r[c - 1])
    ensures var x, c := RoundKey(w, n + 1), 4 * m; Agree(x, r, c) && Agree(x, r, c + 1) && Agree(x, r, c + 2) && Agree(x, r, c + 3)
  {
    hide Sub, Xor, Rcon;
    var i := 4 * (n + 1) + m;
    ScheduleAt(w, key, i);
    hide KeySchedule;
    assert i % 4 == m;
  }

  // One round key after the other: the first word is rotated, substituted and given its constant.
  lemma NextKey(w: RoundKeys, key: State, n: nat, k: State, r: State)
    requires KeySchedule(w, key) && n < ROUNDS && RoundKey(w, n) == k
    requires r[0] == Xor(k[0], Xor(Sub(k[13]), Rcon(n + 1))) && r[1] == Xor(k[1], Sub(k[14]))
    requires r[2] == Xor(k[2], Sub(k[15])) && r[3] == Xor(k[3], Sub(k[12]))
    requires r[4] == Xor(k[4], r[0]) && r[5] == Xor(k[5], r[1]) && r[6] == Xor(k[6], r[2]) && r[7] == Xor(k[7], r[3])
    requires r[8] == Xor(k[8], r[4]) && r[9] == Xor(k[9], r[5]) && r[10] == Xor(k[10], r[6]) && r[11] == Xor(k[11], r[7])
    requires r[12] == Xor(k[12], r[8]) && r[13] == Xor(k[13], r[9]) && r[14] == Xor(k[14], r[10]) && r[15] == Xor(k[15], r[11])
    ensures RoundKey(w, n + 1) == r
  {
    hide Sub, Xor, Rcon, KeySchedule, Agree, RoundKey;
    FirstWordIs(w, key, n, r);
    LaterWordIs(w, key, n, 1, r);
    LaterWordIs(w, key, n, 2, r);
    LaterWordIs(w, key, n, 3, r);
    AllAgree(RoundKey(w, n + 1), r);
  }

  lemma FirstKey(w: RoundKeys)
    requires KeySchedule(w, Key(0))
    ensures RoundKey(w, 0) == Key(0)
  {
    hide ScheduleStep;
  }

  lemma Key1Is(w: RoundKeys)
    requires KeySchedule(w, Key(0))
    ensures RoundKey(w, 1) == Key(1)
  {
    Sub08();
    hide Sub, RoundKey, Sixteen, KeySchedule;
    FirstKey(w);
    NextKey(w, Key(0), 0, Key(0), Key(1));
  }

  lemma Key2Is(w: RoundKeys)
    requires KeySchedule(w, Key(0))
    ensures RoundKey(w, 2) == Key(2)
  {
    Sub70();
    Suba8();
    Subd0();
    Subf8();
    hide Sub, RoundKey, Sixteen, KeySchedule;
    Key1Is(w);
    NextKey(w, Key(0), 1, Key(1), Key(2));
  }

  lemma Key3Is(w: RoundKeys)
    requires KeySchedule(w, Key(0))
    ensures RoundKey(w, 3) == Key(3)
  {
    Sub30();
    Sub68();
    Subb0();
    Subf8();
    hide Sub, RoundKey, Sixteen, KeySchedule;
    Key2Is(w);
    NextKey(w, Key(0), 2, Key(2), Key(3));
  }

  lemma Key4Is(w: RoundKeys)
    requires KeySchedule(w, Key(0))
    ensures RoundKey(w, 4) == Key(4)
  {
    Sub00();
    Sub40();
    Sub68();
    Subb8();
    hide Sub, RoundKey, Sixteen, KeySchedule;
    Key3Is(w);
    NextKey(w, Key(0), 3, Key(3), Key(4));
  }

  lemma Key5Is(w: RoundKeys)
    requires KeySchedule(w, Key(0))
    ensures RoundKey(w, 5) == Key(5)
  {
    Sub00();
    Sub88();
    Subf8();
    hide Sub, RoundKey, Sixteen, KeySchedule;
    Key4Is(w);
    NextKey(w, Key(0), 4, Key(4), Key(5));
  }

  lemma Key6Is(w: RoundKeys)
    requires KeySchedule(w, Key(0))
    ensures RoundKey(w, 6) == Key(6)
  {
    Sub20();
    Suba8();
    Subf0();
    hide Sub, RoundKey, Sixteen, KeySchedule;
    Key5Is(w);
    NextKey(w, Key(0), 5, Key(5), Key(6));
  }

  lemma Key7Is(w: RoundKeys)
    requires KeySchedule(w, Key(0))
    ensures RoundKey(w, 7) == Key(7)
  {
    Sub08();
    Sub18();
    Sub68();
    Suba0();
    hide Sub, RoundKey, Sixteen, KeySchedule;
    Key6Is(w);
    NextKey(w, Key(0), 6, Key(6), Key(7));
  }

  lemma Key8Is(w: RoundKeys)
    requires KeySchedule(w, Key(0))
    ensures RoundKey(w, 8) == Key(8)
  {
    Sub20();
    Sub48();
    Suba8();
    Subc0();
    hide Sub, RoundKey, Sixteen, KeySchedule;
    Key7Is(w);
    NextKey(w, Key(0), 7, Key(7), Key(8));
  }

  lemma Key9Is(w: RoundKeys)
    requires KeySchedule(w, Key(0))
    ensures RoundKey(w, 9) == Key(9)
  {
    Sub78();
    Suba8();
    Subb8();
    Subd0();
    hide Sub, RoundKey, Sixteen, KeySchedule;
    Key8Is(w);
    NextKey(w, Key(0), 8, Key(8), Key(9));
  }

  lemma Key10Is(w: RoundKeys)
    requires KeySchedule(w, Key(0))
    ensures RoundKey(w, 10) == Key(10)
  {
    Sub28();
    Sub48();
    Sub90();
    Subb8();
    hide Sub, RoundKey, Sixteen, KeySchedule;
    Key9Is(w);
    NextKey(w, Key(0), 9, Key(9), Key(10));
  }

  // ---- The cipher ----

  function Plain(): State {
    Sixteen(0x00, 0x11, 0x22, 0x33, 0x44, 0x55, 0x66, 0x77, 0x88, 0x99, 0xaa, 0xbb, 0xcc, 0xdd, 0xee, 0xff)
  }

  function Coded(): State {
    Sixteen(0x69, 0xc4, 0xe0, 0xd8, 0x6a, 0x7b, 0x04, 0x30, 0xd8, 0xcd, 0xb7, 0x80, 0x70, 0xb4, 0xc5, 0x5a)
  }

  // The state at the start of each round.
  function Mid(n: nat): State
    requires n < ROUNDS
  {
    if n == 0 then Sixteen(0x00, 0x10, 0x20, 0x30, 0x40, 0x50, 0x60, 0x70, 0x80, 0x90, 0xa0, 0xb0, 0xc0, 0xd0, 0xe0, 0xf0)
    else if n == 1 then Sixteen(0x89, 0xd8, 0x10, 0xe8, 0x85, 0x5a, 0xce, 0x68, 0x2d, 0x18, 0x43, 0xd8, 0xcb, 0x12, 0x8f, 0xe4)
    else if n == 2 then Sixteen(0x49, 0x15, 0x59, 0x8f, 0x55, 0xe5, 0xd7, 0xa0, 0xda, 0xca, 0x94, 0xfa, 0x1f, 0x0a, 0x63, 0xf7)
    else if n == 3 then Sixteen(0xfa, 0x63, 0x6a, 0x28, 0x25, 0xb3, 0x39, 0xc9, 0x40, 0x66, 0x8a, 0x31, 0x57, 0x24, 0x4d, 0x17)
    else if n == 4 then Sixteen(0x24, 0x72, 0x40, 0x23, 0x69, 0x66, 0xb3, 0xfa, 0x6e, 0xd2, 0x75, 0x32, 0x88, 0x42, 0x5b, 0x6c)
    else if n == 5 then Sixteen(0xc8, 0x16, 0x77, 0xbc, 0x9b, 0x7a, 0xc9, 0x3b, 0x25, 0x02, 0x79, 0x92, 0xb0, 0x26, 0x19, 0x96)
    else if n == 6 then Sixteen(0xc6, 0x2f, 0xe1, 0x09, 0xf7, 0x5e, 0xed, 0xc3, 0xcc, 0x79, 0x39, 0x5d, 0x84, 0xf9, 0xcf, 0x5d)
    else if n == 7 then Sixteen(0xd1, 0x87, 0x6c, 0x0f, 0x79, 0xc4, 0x30, 0x0a, 0xb4, 0x55, 0x94, 0xad, 0xd6, 0x6f, 0xf4, 0x1f)
    else if n == 8 then Sixteen(0xfd, 0xe3, 0xba, 0xd2, 0x05, 0xe5, 0xd0, 0xd7, 0x35, 0x47, 0x96, 0x4e, 0xf1, 0xfe, 0x37, 0xf1)
    else Sixteen(0xbd, 0x6e, 0x7c, 0x3d, 0xf2, 0xb5, 0x77, 0x9e, 0x0b, 0x61, 0x21, 0x6e, 0x8b, 0x10, 0xb6, 0x89)
  }

  lemma StartIs()
    ensures XorState(Plain(), Key(0)) == Mid(0)
  {
    hide Sixteen;
    var s, k, r := Plain(), Key(0), Mid(0);
    var x := XorState(s, k);
    SixteenEqual(x, r);
  }

  lemma Mid1Is()
    ensures RoundWith(Mid(0), Key(1)) == Mid(1)
  {
    Sub00();
    Sub10();
    Sub20();
    Sub30();
    Sub40();
    Sub50();
    Sub60();
    Sub70();
    Sub80();
    Sub90();
    Suba0();
    Subb0();
    Subc0();
    Subd0();
    Sube0();
    Subf0();
    hide Sub, RoundWith, Sixteen;
    RoundBytes(Mid(0), Key(1), Mid(1));
  }

  lemma Mid2Is()
    ensures RoundWith(Mid(1), Key(2)) == Mid(2)
  {
    Sub10();
    Sub18();
    Sub28();
    Sub40();
    Sub58();
    Sub68();
    Sub80();
    Sub88();
    Subc8();
    Subd8();
    Sube0();
    Sube8();
    hide Sub, RoundWith, Sixteen;
    RoundBytes(Mid(1), Key(2), Mid(2));
  }

  lemma Mid3Is()
    ensures RoundWith(Mid(2), Key(3)) == Mid(3)
  {
    Sub08();
    Sub10();
    Sub18();
    Sub48();
    Sub50();
    Sub58();
    Sub60();
    Sub88();
    Sub90();
    Suba0();
    Subc8();
    Subd0();
    Subd8();
    Sube0();
    Subf0();
    Subf8();
    hide Sub, RoundWith, Sixteen;
    RoundBytes(Mid(2), Key(3), Mid(3));
  }

  lemma Mid4Is()
    ensures RoundWith(Mid(3), Key(4)) == Mid(4)
  {
    Sub10();
    Sub20();
    Sub28();
    Sub30();
    Sub38();
    Sub40();
    Sub48();
    Sub50();
    Sub60();
    Sub68();
    Sub88();
    Subb0();
    Subc8();
    Subf8();
    hide Sub, RoundWith, Sixteen;
    RoundBytes(Mid(3), Key(4), Mid(4));
  }

  lemma Mid5Is()
    ensures RoundWith(Mid(4), Key(5)) == Mid(5)
  {
    Sub20();
    Sub30();
    Sub40();
    Sub58();
    Sub60();
    Sub68();
    Sub70();
    Sub88();
    Subb0();
    Subd0();
    Subf8();
    hide Sub, RoundWith, Sixteen;
    RoundBytes(Mid(4), Key(5), Mid(5));
  }

  lemma Mid6Is()
    ensures RoundWith(Mid(5), Key(6)) == Mid(6)
  {
    Sub00();
    Sub10();
    Sub18();
    Sub20();
    Sub38();
    Sub70();
    Sub78();
    Sub90();
    Sub98();
    Subb0();
    Subb8();
    Subc8();
    hide Sub, RoundWith, Sixteen;
    RoundBytes(Mid(5), Key(6), Mid(6));
  }

  lemma Mid7Is()
    ensures RoundWith(Mid(6), Key(7)) == Mid(7)
  {
    Sub08();
    Sub28();
    Sub38();
    Sub58();
    Sub78();
    Sub80();
    Subc0();
    Subc8();
    Sube0();
    Sube8();
    Subf0();
    Subf8();
    hide Sub, RoundWith, Sixteen;
    RoundBytes(Mid(6), Key(7), Mid(7));
  }

  lemma Mid8Is()
    ensures RoundWith(Mid(7), Key(8)) == Mid(8)
  {
    Sub08();
    Sub18();
    Sub30();
    Sub50();
    Sub68();
    Sub78();
    Sub80();
    Sub90();
    Suba8();
    Subb0();
    Subc0();
    Subd0();
    Subf0();
    hide Sub, RoundWith, Sixteen;
    RoundBytes(Mid(7), Key(8), Mid(8));
  }

  lemma Mid9Is()
    ensures RoundWith(Mid(8), Key(9)) == Mid(9)
  {
    Sub00();
    Sub30();
    Sub40();
    Sub48();
    Sub90();
    Subb8();
    Subd0();
    Sube0();
    Subf0();
    Subf8();
    hide Sub, RoundWith, Sixteen;
    RoundBytes(Mid(8), Key(9), Mid(9));
  }

  lemma LastIs()
    ensures LastWith(Mid(9), Key(10)) == Coded()
  {
    Sub08();
    Sub10();
    Sub20();
    Sub38();
    Sub60();
    Sub68();
    Sub70();
    Sub78();
    Sub88();
    Sub98();
    Subb0();
    Subb8();
    Subf0();
    hide Sub, LastWith, Sixteen;
    LastBytes(Mid(9), Key(10), Coded());
  }

  lemma KeyIs(w: RoundKeys, n: nat)
    requires KeySchedule(w, Key(0)) && n <= ROUNDS
    ensures RoundKey(w, n) == Key(n)
  {
    hide KeySchedule, Key, RoundKey;
    FirstKey(w);
    Key1Is(w);
    Key2Is(w);
    Key3Is(w);
    Key4Is(w);
    Key5Is(w);
    Key6Is(w);
    Key7Is(w);
    Key8Is(w);
    Key9Is(w);
    Key10Is(w);
    assert n == 0 || n == 1 || n == 2 || n == 3 || n == 4 || n == 5 || n == 6 || n == 7 || n == 8 || n == 9 || n == 10;
  }

  lemma MidIs(n: nat)
    requires 0 < n < ROUNDS
    ensures RoundWith(Mid(n - 1), Key(n)) == Mid(n)
  {
    hide Key, Mid, RoundWith;
    Mid1Is();
    Mid2Is();
    Mid3Is();
    Mid4Is();
    Mid5Is();
    Mid6Is();
    Mid7Is();
    Mid8Is();
    Mid9Is();
    assert n == 1 || n == 2 || n == 3 || n == 4 || n == 5 || n == 6 || n == 7 || n == 8 || n == 9;
  }

  lemma {:induction false} RoundsAre(w: RoundKeys, n: nat)
    requires KeySchedule(w, Key(0)) && n < ROUNDS
    ensures Rounds(Plain(), w, n) == Mid(n)
  {
    hide KeySchedule, Key, Mid, Plain, RoundWith, XorState, RoundKey, Rounds;
    KeyIs(w, n);
    if n == 0 {
      NoRounds(Plain(), w);
      StartIs();
    } else {
      RoundsAre(w, n - 1);
      OneRound(Plain(), w, n);
      MidIs(n);
    }
  }

  lemma NoRounds(s: State, w: RoundKeys)
    ensures Rounds(s, w, 0) == XorState(s, RoundKey(w, 0))
  {
    hide XorState, RoundKey;
  }

  lemma OneRound(s: State, w: RoundKeys, n: nat)
    requires 0 < n < ROUNDS
    ensures Rounds(s, w, n) == RoundWith(Rounds(s, w, n - 1), RoundKey(w, n))
  {
    hide SubBytes, ShiftRows, MixColumns, XorState, RoundKey;
  }

  // Appendix C.1: with the key schedule of the example's key, its plaintext gives its ciphertext.
  lemma ExampleCipher(w: RoundKeys)
    requires KeySchedule(w, Key(0))
    ensures Cipher(Plain(), w) == Coded()
  {
    hide KeySchedule, Key, Mid, Plain, Coded, SubBytes, ShiftRows, MixColumns, XorState, RoundKey, Rounds;
    KeyIs(w, ROUNDS);
    RoundsAre(w, ROUNDS - 1);
    LastIs();
  }

  // The routines, on the example.
  method RunExample() returns (out: seq<bv8>)
    ensures out == Coded()
  {
    hide KeySchedule, Cipher, Block, Key, Plain, Coded;
    var w, buf := new bv8[176], new bv8[16];
    for i := 0 to 16
      invariant forall k :: 0 <= k < i ==> buf[k] == Plain()[k]
    {
      buf[i] := Plain()[i];
    }
    assert buf[..] == Plain();
    WholeBlock(buf[..]);
    KeyExpansion(w, Key(0));
    ExampleCipher(w[..]);
    CipherAt(buf, 0, w);
    WholeBlock(buf[..]);
    out := buf[..];
  }

  lemma WholeBlock(h: seq<bv8>)
    requires |h| == 16
    ensures Block(h, 0) == h
  {
  }
}
