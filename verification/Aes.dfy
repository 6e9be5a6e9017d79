/**
 AES-128 on 16-byte states (sections 5.1 to 5.3 of FIPS 197) as crypto/tiny_aes.c computes
 it: byte 4 * i + j of a state is the source's (*state)[i][j].
 */
module Aes {
  import opened AesTables
  import opened AesField

  const ROUNDS: nat := 10

  type State = s: seq<bv8> | |s| == 16 witness seq(16, _ => 0)
  type RoundKeys = k: seq<bv8> | |k| == 176 witness seq(176, _ => 0)

  function SubBytes(s: State): (r: State)
    ensures forall k :: 0 <= k < 16 ==> r[k] == Sub(s[k])
  {
    seq(16, k requires 0 <= k < 16 => Sub(s[k]))
  }

  function InvSubBytes(s: State): (r: State)
    ensures forall k :: 0 <= k < 16 ==> r[k] == InvSub(s[k])
  {
    seq(16, k requires 0 <= k < 16 => InvSub(s[k]))
  }

  // The position n rows further on in the same column.
  function NextRow(k: nat, n: nat): (r: nat)
    requires k < 16
    ensures r < 16
  {
    4 * (k / 4) + (k % 4 + n) % 4
  }

  // Row j moves j columns to the left (section 5.1.2), or back to the right (section 5.3.1):
  // byte 4 * i + j comes from byte 4 * ((i + j) mod 4) + j, that is, five times its own number.
  function ShiftRows(s: State): (r: State)
    ensures forall k :: 0 <= k < 16 ==> r[k] == s[5 * k % 16]
  {
    seq(16, k requires 0 <= k < 16 => s[5 * k % 16])
  }

  function InvShiftRows(s: State): (r: State)
    ensures forall k :: 0 <= k < 16 ==> r[k] == s[13 * k % 16]
  {
    seq(16, k requires 0 <= k < 16 => s[13 * k % 16])
  }

  lemma SixteenEqual(r: State, t: State)
    requires r[0] == t[0] && r[1] == t[1] && r[2] == t[2] && r[3] == t[3] && r[4] == t[4] && r[5] == t[5]
    requires r[6] == t[6] && r[7] == t[7] && r[8] == t[8] && r[9] == t[9] && r[10] == t[10] && r[11] == t[11]
    requires r[12] == t[12] && r[13] == t[13] && r[14] == t[14] && r[15] == t[15]
    ensures r == t
  {
  }

  lemma ShiftRowsTable(s: State, r: State)
    requires r[0] == s[0] && r[1] == s[5] && r[2] == s[10] && r[3] == s[15] && r[4] == s[4] && r[5] == s[9] && r[6] == s[14] && r[7] == s[3]
    requires r[8] == s[8] && r[9] == s[13] && r[10] == s[2] && r[11] == s[7] && r[12] == s[12] && r[13] == s[1] && r[14] == s[6] && r[15] == s[11]
    ensures r == ShiftRows(s)
  {
    var t := ShiftRows(s);
    assert t[0] == s[0] && t[1] == s[5] && t[2] == s[10] && t[3] == s[15] && t[4] == s[4] && t[5] == s[9] && t[6] == s[14] && t[7] == s[3];
    assert t[8] == s[8] && t[9] == s[13] && t[10] == s[2] && t[11] == s[7] && t[12] == s[12] && t[13] == s[1] && t[14] == s[6] && t[15] == s[11];
    hide ShiftRows;
    SixteenEqual(r, t);
  }

  lemma InvShiftRowsTable(s: State, r: State)
    requires r[0] == s[0] && r[1] == s[13] && r[2] == s[10] && r[3] == s[7] && r[4] == s[4] && r[5] == s[1] && r[6] == s[14] && r[7] == s[11]
    requires r[8] == s[8] && r[9] == s[5] && r[10] == s[2] && r[11] == s[15] && r[12] == s[12] && r[13] == s[9] && r[14] == s[6] && r[15] == s[3]
    ensures r == InvShiftRows(s)
  {
    var t := InvShiftRows(s);
    assert t[0] == s[0] && t[1] == s[13] && t[2] == s[10] && t[3] == s[7] && t[4] == s[4] && t[5] == s[1] && t[6] == s[14] && t[7] == s[11];
    assert t[8] == s[8] && t[9] == s[5] && t[10] == s[2] && t[11] == s[15] && t[12] == s[12] && t[13] == s[9] && t[14] == s[6] && t[15] == s[3];
    hide InvShiftRows;
    SixteenEqual(r, t);
  }

  function MixColumns(s: State): (r: State)
    ensures forall k :: 0 <= k < 16 ==> r[k] == Mixed(s[k], s[NextRow(k, 1)], s[NextRow(k, 2)], s[NextRow(k, 3)])
  {
    seq(16, k requires 0 <= k < 16 => Mixed(s[k], s[NextRow(k, 1)], s[NextRow(k, 2)], s[NextRow(k, 3)]))
  }

  function InvMixColumns(s: State): (r: State)
    ensures forall k :: 0 <= k < 16 ==> r[k] == Unmixed(s[k], s[NextRow(k, 1)], s[NextRow(k, 2)], s[NextRow(k, 3)])
  {
    seq(16, k requires 0 <= k < 16 => Unmixed(s[k], s[NextRow(k, 1)], s[NextRow(k, 2)], s[NextRow(k, 3)]))
  }

  function XorState(s: State, t: State): (r: State)
    ensures forall k :: 0 <= k < 16 ==> r[k] == Xor(s[k], t[k])
  {
    seq(16, k requires 0 <= k < 16 => Xor(s[k], t[k]))
  }

  function RoundKey(w: RoundKeys, round: nat): State
    requires round <= ROUNDS
  {
    w[16 * round..16 * round + 16]
  }

  function AddRoundKey(s: State, w: RoundKeys, round: nat): State
    requires round <= ROUNDS
  {
    XorState(s, RoundKey(w, round))
  }

  // ---- Each layer and its inverse ----

  lemma SubBytesInverse(s: State)
    ensures InvSubBytes(SubBytes(s)) == s
  {
    hide Sub, InvSub;
    forall k | 0 <= k < 16 ensures InvSub(Sub(s[k])) == s[k] { InvSubInvertsSub(s[k]); }
  }

  lemma ShiftRowsInverse(s: State)
    ensures InvShiftRows(ShiftRows(s)) == s
  {
    var t := ShiftRows(s);
    assert t[0] == s[0] && t[13] == s[1] && t[10] == s[2] && t[7] == s[3] && t[4] == s[4] && t[1] == s[5] && t[14] == s[6] && t[11] == s[7];
    assert t[8] == s[8] && t[5] == s[9] && t[2] == s[10] && t[15] == s[11] && t[12] == s[12] && t[9] == s[13] && t[6] == s[14] && t[3] == s[15];
    hide ShiftRows, InvShiftRows;
    InvShiftRowsTable(t, s);
  }

  lemma RowParts(k: nat, n: nat)
    requires k < 16
    ensures NextRow(k, n) / 4 == k / 4 && NextRow(k, n) % 4 == (k % 4 + n) % 4
  {
  }

  lemma RowsAdd(k: nat, m: nat, n: nat)
    requires k < 16 && 1 <= m <= 3 && 1 <= n <= 3
    ensures NextRow(NextRow(k, m), n) == if m + n == 4 then k else NextRow(k, (m + n) % 4)
  {
    RowParts(k, m);
    assert k == 4 * (k / 4) + k % 4;
    assert ((k % 4 + m) % 4 + n) % 4 == (k % 4 + (m + n) % 4) % 4;
  }

  // The rows of column i.
  lemma RowOfColumn(i: nat, j: nat, n: nat)
    requires i < 4 && j < 4
    ensures NextRow(4 * i + j, n) == 4 * i + (j + n) % 4
  {
    assert (4 * i + j) / 4 == i && (4 * i + j) % 4 == j;
  }

  lemma RowsOfColumn(i: nat)
    requires i < 4
    ensures NextRow(4 * i, 1) == 4 * i + 1 && NextRow(4 * i, 2) == 4 * i + 2 && NextRow(4 * i, 3) == 4 * i + 3
    ensures NextRow(4 * i + 1, 1) == 4 * i + 2 && NextRow(4 * i + 1, 2) == 4 * i + 3 && NextRow(4 * i + 1, 3) == 4 * i
    ensures NextRow(4 * i + 2, 1) == 4 * i + 3 && NextRow(4 * i + 2, 2) == 4 * i && NextRow(4 * i + 2, 3) == 4 * i + 1
    ensures NextRow(4 * i + 3, 1) == 4 * i && NextRow(4 * i + 3, 2) == 4 * i + 1 && NextRow(4 * i + 3, 3) == 4 * i + 2
  {
    hide NextRow;
    RowOfColumn(i, 0, 1); RowOfColumn(i, 0, 2); RowOfColumn(i, 0, 3);
    RowOfColumn(i, 1, 1); RowOfColumn(i, 1, 2); RowOfColumn(i, 1, 3);
    RowOfColumn(i, 2, 1); RowOfColumn(i, 2, 2); RowOfColumn(i, 2, 3);
    RowOfColumn(i, 3, 1); RowOfColumn(i, 3, 2); RowOfColumn(i, 3, 3);
  }

  // Row by row, the neighbours' neighbours.
  lemma RowsAround(k: nat)
    requires k < 16
    ensures NextRow(NextRow(k, 1), 1) == NextRow(k, 2) && NextRow(NextRow(k, 1), 2) == NextRow(k, 3)
    ensures NextRow(NextRow(k, 1), 3) == k && NextRow(NextRow(k, 2), 1) == NextRow(k, 3)
    ensures NextRow(NextRow(k, 2), 2) == k && NextRow(NextRow(k, 2), 3) == NextRow(k, 1)
    ensures NextRow(NextRow(k, 3), 1) == k && NextRow(NextRow(k, 3), 2) == NextRow(k, 1)
    ensures NextRow(NextRow(k, 3), 3) == NextRow(k, 2)
  {
    hide NextRow;
    RowsAdd(k, 1, 1); RowsAdd(k, 1, 2); RowsAdd(k, 1, 3);
    RowsAdd(k, 2, 1); RowsAdd(k, 2, 2); RowsAdd(k, 2, 3);
    RowsAdd(k, 3, 1); RowsAdd(k, 3, 2); RowsAdd(k, 3, 3);
  }

  lemma MixColumnsInverse(s: State)
    ensures InvMixColumns(MixColumns(s)) == s
  {
    hide Mixed, Unmixed, NextRow;
    forall k | 0 <= k < 16 ensures InvMixColumns(MixColumns(s))[k] == s[k] {
      RowsAround(k);
      UnmixedInvertsMixed(s[k], s[NextRow(k, 1)], s[NextRow(k, 2)], s[NextRow(k, 3)]);
    }
  }

  lemma XorStateInverse(s: State, t: State)
    ensures XorState(XorState(s, t), t) == s
  {
    hide Xor;
    forall k | 0 <= k < 16 ensures Xor(Xor(s[k], t[k]), t[k]) == s[k] { CancelLast(s[k], t[k]); }
  }

  // ---- The ciphers ----

  function Round(s: State, w: RoundKeys, round: nat): State
    requires round <= ROUNDS
  {
    AddRoundKey(MixColumns(ShiftRows(SubBytes(s))), w, round)
  }

  // The state after `rounds` full rounds.
  function Rounds(s: State, w: RoundKeys, rounds: nat): State
    requires rounds < ROUNDS
    decreases rounds
  {
    if rounds == 0 then AddRoundKey(s, w, 0) else Round(Rounds(s, w, rounds - 1), w, rounds)
  }

  function Cipher(s: State, w: RoundKeys): State {
    AddRoundKey(ShiftRows(SubBytes(Rounds(s, w, ROUNDS - 1))), w, ROUNDS)
  }

  function InvRound(s: State, w: RoundKeys, round: nat): State
    requires round <= ROUNDS
  {
    InvMixColumns(AddRoundKey(InvSubBytes(InvShiftRows(s)), w, round))
  }

  // The inverse rounds from `rounds` down to 1.
  function InvRounds(s: State, w: RoundKeys, rounds: nat): State
    requires rounds < ROUNDS
    decreases rounds
  {
    if rounds == 0 then s else InvRounds(InvRound(s, w, rounds), w, rounds - 1)
  }

  function InvCipher(s: State, w: RoundKeys): State {
    AddRoundKey(InvSubBytes(InvShiftRows(InvRounds(AddRoundKey(s, w, ROUNDS), w, ROUNDS - 1))), w, 0)
  }

  // One inverse round undoes one round, up to the substitution and shift it shares with its neighbour.
  lemma InvRoundUndoesRound(y: State, w: RoundKeys, n: nat)
    requires n <= ROUNDS
    ensures InvRound(ShiftRows(SubBytes(Round(y, w, n))), w, n) == ShiftRows(SubBytes(y))
  {
    hide SubBytes, InvSubBytes, ShiftRows, InvShiftRows, MixColumns, InvMixColumns, XorState, RoundKey;
    var z := ShiftRows(SubBytes(y));
    var x := Round(y, w, n);
    ShiftRowsInverse(SubBytes(x));
    SubBytesInverse(x);
    XorStateInverse(MixColumns(z), RoundKey(w, n));
    MixColumnsInverse(z);
  }

  // The inverse rounds take the substituted, shifted state after n rounds back to the one after none.
  lemma {:induction false} InvRoundsUndoRounds(s: State, w: RoundKeys, n: nat)
    requires n < ROUNDS
    ensures InvRounds(ShiftRows(SubBytes(Rounds(s, w, n))), w, n) == ShiftRows(SubBytes(AddRoundKey(s, w, 0)))
  {
    hide SubBytes, ShiftRows, AddRoundKey, Round, InvRound;
    if n > 0 {
      InvRoundUndoesRound(Rounds(s, w, n - 1), w, n);
      InvRoundsUndoRounds(s, w, n - 1);
    }
  }

  // InvCipher undoes Cipher for any 176 round-key bytes at all.
  lemma InvCipherInvertsCipher(s: State, w: RoundKeys)
    ensures InvCipher(Cipher(s, w), w) == s
  {
    hide SubBytes, InvSubBytes, ShiftRows, InvShiftRows, MixColumns, InvMixColumns, XorState, Rounds, InvRounds;
    var x := Rounds(s, w, ROUNDS - 1);
    XorStateInverse(ShiftRows(SubBytes(x)), RoundKey(w, ROUNDS));
    InvRoundsUndoRounds(s, w, ROUNDS - 1);
    ShiftRowsInverse(SubBytes(AddRoundKey(s, w, 0)));
    SubBytesInverse(AddRoundKey(s, w, 0));
    XorStateInverse(s, RoundKey(w, 0));
  }
}
