/**
 The in-place routines of crypto/tiny_aes.c and CBC chaining over whole buffers (section 6.2
 of NIST SP 800-38A).
 */
module AesCbc {
  import opened AesTables
  import opened AesField
  import opened Aes

  // ---- Chaining as functions ----

  function Encrypted(data: seq<bv8>, iv: State, w: RoundKeys): (r: seq<bv8>)
    requires |data| % 16 == 0
    ensures |r| == |data|
    decreases |data|
  {
    if data == [] then []
    else
      var c := Cipher(XorState(data[..16], iv), w);
      c + Encrypted(data[16..], c, w)
  }

  function Decrypted(data: seq<bv8>, iv: State, w: RoundKeys): (r: seq<bv8>)
    requires |data| % 16 == 0
    ensures |r| == |data|
    decreases |data|
  {
    if data == [] then []
    else XorState(InvCipher(data[..16], w), iv) + Decrypted(data[16..], data[..16], w)
  }

  // The chaining value after a buffer: its last ciphertext block, or the old value for no blocks.
  function LastBlock(cipher: seq<bv8>, iv: State): State
    requires |cipher| % 16 == 0
  {
    if cipher == [] then iv else cipher[|cipher| - 16..]
  }

  // Decryption undoes encryption, for every key, IV and whole number of blocks.
  lemma {:induction false} DecryptedInvertsEncrypted(data: seq<bv8>, iv: State, w: RoundKeys)
    requires |data| % 16 == 0
    ensures Decrypted(Encrypted(data, iv, w), iv, w) == data
    decreases |data|
  {
    hide Cipher, InvCipher, XorState;
    if data != [] {
      var x := XorState(data[..16], iv);
      var c: State := Cipher(x, w);
      var rest := Encrypted(data[16..], c, w);
      var all: seq<bv8> := c + rest;
      assert all[..16] == c && all[16..] == rest;
      InvCipherInvertsCipher(x, w);
      XorStateInverse(data[..16], iv);
      DecryptedInvertsEncrypted(data[16..], c, w);
      assert data == data[..16] + data[16..];
    }
  }

  lemma LastOfBoth(x: seq<bv8>, y: seq<bv8>, iv: State)
    requires |x| % 16 == 0 && |y| % 16 == 0
    ensures LastBlock(x + y, iv) == LastBlock(y, LastBlock(x, iv))
  {
    if y == [] { assert x + y == x; }
  }

  // Cutting a buffer at a block boundary and chaining the two calls changes nothing, neither the
  // bytes nor the chaining value left behind.
  lemma {:induction false} EncryptionSplits(a: seq<bv8>, b: seq<bv8>, iv: State, w: RoundKeys)
    requires |a| % 16 == 0 && |b| % 16 == 0
    ensures Encrypted(a + b, iv, w) == Encrypted(a, iv, w) + Encrypted(b, LastBlock(Encrypted(a, iv, w), iv), w)
    decreases |a|
  {
    hide Cipher, XorState, LastBlock;
    if a == [] {
      assert a + b == b;
      assert LastBlock([], iv) == iv by { NoLast(iv); }
    } else {
      var c: State := Cipher(XorState(a[..16], iv), w);
      assert (a + b)[..16] == a[..16] && (a + b)[16..] == a[16..] + b;
      var e := Encrypted(a[16..], c, w);
      EncryptionSplits(a[16..], b, c, w);
      LastOfBoth(c, e, iv);
      OneLast(c, iv);
    }
  }

  lemma NoLast(iv: State)
    ensures LastBlock([], iv) == iv
  {
  }

  lemma OneLast(c: State, iv: State)
    ensures LastBlock(c, iv) == c
  {
  }

  lemma EncryptionSplitsChain(a: seq<bv8>, b: seq<bv8>, iv: State, w: RoundKeys)
    requires |a| % 16 == 0 && |b| % 16 == 0
    ensures var mid := LastBlock(Encrypted(a, iv, w), iv);
      LastBlock(Encrypted(a + b, iv, w), iv) == LastBlock(Encrypted(b, mid, w), mid)
  {
    EncryptionSplits(a, b, iv, w);
    LastOfBoth(Encrypted(a, iv, w), Encrypted(b, LastBlock(Encrypted(a, iv, w), iv), w), iv);
  }

  lemma {:induction false} DecryptionSplits(a: seq<bv8>, b: seq<bv8>, iv: State, w: RoundKeys)
    requires |a| % 16 == 0 && |b| % 16 == 0
    ensures Decrypted(a + b, iv, w) == Decrypted(a, iv, w) + Decrypted(b, LastBlock(a, iv), w)
    decreases |a|
  {
    hide InvCipher, XorState;
    if a == [] {
      assert a + b == b;
    } else {
      assert (a + b)[..16] == a[..16] && (a + b)[16..] == a[16..] + b;
      DecryptionSplits(a[16..], b, a[..16], w);
    }
  }

  lemma DropShifts(a: seq<bv8>, k: nat)
    requires 16 <= k && k + 16 <= |a|
    ensures a[16..][k - 16..k] == a[k..k + 16]
  {
  }

  lemma BlockBehind(first: seq<bv8>, rest: seq<bv8>, k: nat)
    requires |first| == 16 && 16 <= k && k <= |rest|
    ensures (first + rest)[k..k + 16] == rest[k - 16..k] && (first + rest)[0..16] == first
  {
  }

  // Section 6.2 of NIST SP 800-38A, block by block: each plaintext block is combined with the
  // ciphertext block before it, the first one with the IV, and enciphered.
  lemma {:induction false} EncryptedBlocks(data: seq<bv8>, iv: State, w: RoundKeys, i: nat)
    requires |data| % 16 == 0 && 16 * i + 16 <= |data|
    ensures var c := Encrypted(data, iv, w);
      c[16 * i..16 * i + 16] ==
        Cipher(XorState(data[16 * i..16 * i + 16], if i == 0 then iv else c[16 * i - 16..16 * i]), w)
    decreases |data|
  {
    hide Cipher, XorState;
    var first: State := Cipher(XorState(data[..16], iv), w);
    var rest := Encrypted(data[16..], first, w);
    assert Encrypted(data, iv, w) == first + rest;
    if i == 0 {
      assert (first + rest)[0..16] == first && data[0..16] == data[..16];
    } else {
      EncryptedBlocks(data[16..], first, w, i - 1);
      hide Encrypted;
      BlockBehind(first, rest, 16 * i);
      DropShifts(data, 16 * i);
      if i > 1 { BlockBehind(first, rest, 16 * i - 16); }
    }
  }

  lemma {:induction false} DecryptedBlocks(data: seq<bv8>, iv: State, w: RoundKeys, i: nat)
    requires |data| % 16 == 0 && 16 * i + 16 <= |data|
    ensures Decrypted(data, iv, w)[16 * i..16 * i + 16] ==
      XorState(InvCipher(data[16 * i..16 * i + 16], w), if i == 0 then iv else data[16 * i - 16..16 * i])
    decreases |data|
  {
    hide InvCipher, XorState;
    var first: seq<bv8> := XorState(InvCipher(data[..16], w), iv);
    var rest: seq<bv8> := Decrypted(data[16..], data[..16], w);
    assert Decrypted(data, iv, w) == first + rest;
    if i == 0 {
      assert (first + rest)[0..16] == first && data[0..16] == data[..16];
    } else {
      DecryptedBlocks(data[16..], data[..16], w, i - 1);
      hide Decrypted;
      BlockBehind(first, rest, 16 * i);
      DropShifts(data, 16 * i);
      if i > 1 { DropShifts(data, 16 * i - 16); } else { assert data[0..16] == data[..16]; }
    }
  }

  // ---- The key schedule (section 5.2 of FIPS 197) ----

  type Word = t: seq<bv8> | |t| == 4 witness [0, 0, 0, 0]

  function ExpandedWord(key: State, i: nat): Word
    requires i < 44
    decreases i
  {
    if i < 4 then key[4 * i..4 * i + 4]
    else
      var u := Scheduled(ExpandedWord(key, i - 1), i);
      var back := ExpandedWord(key, i - 4);
      [Xor(back[0], u[0]), Xor(back[1], u[1]), Xor(back[2], u[2]), Xor(back[3], u[3])]
  }

  // Every fourth word is rotated, substituted and given its round constant.
  function Scheduled(t: Word, i: nat): Word
    requires i < 44
  {
    if i % 4 == 0 then [Xor(Sub(t[1]), Rcon(i / 4)), Sub(t[2]), Sub(t[3]), Sub(t[0])] else t
  }

  // Section 5.2 over the bytes themselves: how word i comes from the words one and four before it.
  ghost predicate ScheduleStep(w: seq<bv8>, i: nat)
    requires |w| == 176 && 4 <= i < 44
  {
    var n, p, q := 4 * i, 4 * (i - 4), 4 * (i - 1);
    if i % 4 == 0 then
      && w[n] == Xor(w[p], Xor(Sub(w[q + 1]), Rcon(i / 4))) && w[n + 1] == Xor(w[p + 1], Sub(w[q + 2]))
      && w[n + 2] == Xor(w[p + 2], Sub(w[q + 3])) && w[n + 3] == Xor(w[p + 3], Sub(w[q]))
    else
      && w[n] == Xor(w[p], w[q]) && w[n + 1] == Xor(w[p + 1], w[q + 1])
      && w[n + 2] == Xor(w[p + 2], w[q + 2]) && w[n + 3] == Xor(w[p + 3], w[q + 3])
  }

  ghost predicate KeySchedule(w: seq<bv8>, key: State) {
    |w| == 176 && w[..16] == key && forall i :: 4 <= i < 44 ==> ScheduleStep(w, i)
  }

  // The round constants are the powers of 2 (section 5.2 of FIPS 197).
  lemma RconIsPower(i: nat)
    requires 1 <= i < 11
    ensures Rcon(i) == if i == 1 then 1 else XTime(Rcon(i - 1))
  {
  }

  // ---- The routines in place ----

  // Nothing outside the 16 bytes from `off` has changed.
  ghost predicate SameOutside(h: seq<bv8>, h': seq<bv8>, off: nat) {
    |h| == |h'| && forall k :: 0 <= k < |h| && !(off <= k < off + 16) ==> h'[k] == h[k]
  }

  ghost function Block(h: seq<bv8>, off: nat): State
    requires off + 16 <= |h|
  {
    h[off..off + 16]
  }

  method AddRoundKeyAt(buf: array<bv8>, off: nat, w: array<bv8>, round: nat)
    requires off + 16 <= buf.Length && w.Length == 176 && round <= ROUNDS && buf != w
    modifies buf
    ensures SameOutside(old(buf[..]), buf[..], off)
    ensures Block(buf[..], off) == AddRoundKey(old(Block(buf[..], off)), w[..], round)
  {
    hide Xor;
    ghost var h := buf[..];
    for i := 0 to 4
      invariant forall k :: 0 <= k < buf.Length && !(off <= k < off + 4 * i) ==> buf[k] == h[k]
      invariant forall k :: off <= k < off + 4 * i ==> buf[k] == Xor(h[k], w[16 * round + k - off])
    {
      for j := 0 to 4
        invariant forall k :: 0 <= k < buf.Length && !(off <= k < off + 4 * i + j) ==> buf[k] == h[k]
        invariant forall k :: off <= k < off + 4 * i + j ==> buf[k] == Xor(h[k], w[16 * round + k - off])
      {
        var m := off + 4 * i + j;
        buf[m] := Xor(buf[m], w[round * 16 + i * 4 + j]);
      }
    }
    assert forall k :: off <= k < off + 16 ==> buf[k] == Xor(h[k], w[16 * round + k - off]);
    assert Block(buf[..], off) == AddRoundKey(Block(h, off), w[..], round);
  }

  method SubBytesAt(buf: array<bv8>, off: nat)
    requires off + 16 <= buf.Length
    modifies buf
    ensures SameOutside(old(buf[..]), buf[..], off)
    ensures Block(buf[..], off) == SubBytes(old(Block(buf[..], off)))
  {
    hide Sub;
    ghost var h := buf[..];
    for i := 0 to 4
      invariant forall k :: 0 <= k < buf.Length && !(off <= k < off + 4 * i) ==> buf[k] == h[k]
      invariant forall k :: off <= k < off + 4 * i ==> buf[k] == Sub(h[k])
    {
      for j := 0 to 4
        invariant forall k :: 0 <= k < buf.Length && !(off <= k < off + 4 * i + j) ==> buf[k] == h[k]
        invariant forall k :: off <= k < off + 4 * i + j ==> buf[k] == Sub(h[k])
      {
        var m := off + 4 * i + j;
        buf[m] := Sub(buf[m]);
      }
    }
  }

  method InvSubBytesAt(buf: array<bv8>, off: nat)
    requires off + 16 <= buf.Length
    modifies buf
    ensures SameOutside(old(buf[..]), buf[..], off)
    ensures Block(buf[..], off) == InvSubBytes(old(Block(buf[..], off)))
  {
    hide InvSub;
    ghost var h := buf[..];
    for i := 0 to 4
      invariant forall k :: 0 <= k < buf.Length && !(off <= k < off + 4 * i) ==> buf[k] == h[k]
      invariant forall k :: off <= k < off + 4 * i ==> buf[k] == InvSub(h[k])
    {
      for j := 0 to 4
        invariant forall k :: 0 <= k < buf.Length && !(off <= k < off + 4 * i + j) ==> buf[k] == h[k]
        invariant forall k :: off <= k < off + 4 * i + j ==> buf[k] == InvSub(h[k])
      {
        var m := off + 4 * i + j;
        buf[m] := InvSub(buf[m]);
      }
    }
  }

  // One row of ShiftRows through the temporary: a takes b's byte, b takes c's, c takes d's, d takes a's.
  method CycleFour(buf: array<bv8>, a: nat, b: nat, c: nat, d: nat)
    requires a < buf.Length && b < buf.Length && c < buf.Length && d < buf.Length
    requires a != b && a != c && a != d && b != c && b != d && c != d
    modifies buf
    ensures buf[a] == old(buf[b]) && buf[b] == old(buf[c]) && buf[c] == old(buf[d]) && buf[d] == old(buf[a])
    ensures forall k :: 0 <= k < buf.Length && k != a && k != b && k != c && k != d ==> buf[k] == old(buf[k])
  {
    var temp := buf[a];
    buf[a] := buf[b];
    buf[b] := buf[c];
    buf[c] := buf[d];
    buf[d] := temp;
  }

  method SwapTwo(buf: array<bv8>, a: nat, b: nat)
    requires a < buf.Length && b < buf.Length && a != b
    modifies buf
    ensures buf[a] == old(buf[b]) && buf[b] == old(buf[a])
    ensures forall k :: 0 <= k < buf.Length && k != a && k != b ==> buf[k] == old(buf[k])
  {
    var temp := buf[a];
    buf[a] := buf[b];
    buf[b] := temp;
  }

  method ShiftRowsAt(buf: array<bv8>, off: nat)
    requires off + 16 <= buf.Length
    modifies buf
    ensures SameOutside(old(buf[..]), buf[..], off)
    ensures Block(buf[..], off) == ShiftRows(old(Block(buf[..], off)))
  {
    hide ShiftRows;
    ghost var s := Block(buf[..], off);
    CycleFour(buf, off + 1, off + 5, off + 9, off + 13);
    SwapTwo(buf, off + 2, off + 10);
    SwapTwo(buf, off + 6, off + 14);
    CycleFour(buf, off + 3, off + 15, off + 11, off + 7);
    ShiftRowsTable(s, Block(buf[..], off));
  }

  method InvShiftRowsAt(buf: array<bv8>, off: nat)
    requires off + 16 <= buf.Length
    modifies buf
    ensures SameOutside(old(buf[..]), buf[..], off)
    ensures Block(buf[..], off) == InvShiftRows(old(Block(buf[..], off)))
  {
    hide InvShiftRows;
    ghost var s := Block(buf[..], off);
    CycleFour(buf, off + 13, off + 9, off + 5, off + 1);
    SwapTwo(buf, off + 2, off + 10);
    SwapTwo(buf, off + 6, off + 14);
    CycleFour(buf, off + 3, off + 7, off + 11, off + 15);
    InvShiftRowsTable(s, Block(buf[..], off));
  }

  method MixColumnsAt(buf: array<bv8>, off: nat)
    requires off + 16 <= buf.Length
    modifies buf
    ensures SameOutside(old(buf[..]), buf[..], off)
    ensures Block(buf[..], off) == MixColumns(old(Block(buf[..], off)))
  {
    hide Mixed, NextRow, MixColumns;
    ghost var h := buf[..];
    for i := 0 to 4
      invariant forall k :: 0 <= k < buf.Length && !(off <= k < off + 4 * i) ==> buf[k] == h[k]
      invariant forall j :: 0 <= j < 4 * i ==> buf[off + j] == MixedAt(h, off, j)
    {
      RowsOfColumn(i);
      MixColumn(buf, off + 4 * i);
    }
    MixedBlock(h, buf[..], off);
  }

  function MixedAt(h: seq<bv8>, off: nat, j: nat): bv8
    requires off + 16 <= |h| && j < 16
  {
    Mixed(h[off + j], h[off + NextRow(j, 1)], h[off + NextRow(j, 2)], h[off + NextRow(j, 3)])
  }

  function UnmixedAt(h: seq<bv8>, off: nat, j: nat): bv8
    requires off + 16 <= |h| && j < 16
  {
    Unmixed(h[off + j], h[off + NextRow(j, 1)], h[off + NextRow(j, 2)], h[off + NextRow(j, 3)])
  }

  lemma MixedBlock(h: seq<bv8>, h': seq<bv8>, off: nat)
    requires off + 16 <= |h| == |h'| && forall j :: 0 <= j < 16 ==> h'[off + j] == MixedAt(h, off, j)
    ensures Block(h', off) == MixColumns(Block(h, off))
  {
    hide Mixed, NextRow;
    forall j | 0 <= j < 16 ensures Block(h', off)[j] == MixColumns(Block(h, off))[j] {
      assert h'[off + j] == MixedAt(h, off, j);
    }
  }

  lemma UnmixedBlock(h: seq<bv8>, h': seq<bv8>, off: nat)
    requires off + 16 <= |h| == |h'| && forall j :: 0 <= j < 16 ==> h'[off + j] == UnmixedAt(h, off, j)
    ensures Block(h', off) == InvMixColumns(Block(h, off))
  {
    hide Unmixed, NextRow;
    forall j | 0 <= j < 16 ensures Block(h', off)[j] == InvMixColumns(Block(h, off))[j] {
      assert h'[off + j] == UnmixedAt(h, off, j);
    }
  }

  method InvMixColumnsAt(buf: array<bv8>, off: nat)
    requires off + 16 <= buf.Length
    modifies buf
    ensures SameOutside(old(buf[..]), buf[..], off)
    ensures Block(buf[..], off) == InvMixColumns(old(Block(buf[..], off)))
  {
    hide Unmixed, NextRow, InvMixColumns;
    ghost var h := buf[..];
    for i := 0 to 4
      invariant forall k :: 0 <= k < buf.Length && !(off <= k < off + 4 * i) ==> buf[k] == h[k]
      invariant forall j :: 0 <= j < 4 * i ==> buf[off + j] == UnmixedAt(h, off, j)
    {
      RowsOfColumn(i);
      InvMixColumn(buf, off + 4 * i);
    }
    UnmixedBlock(h, buf[..], off);
  }

  method InvMixColumn(buf: array<bv8>, c: nat)
    requires c + 4 <= buf.Length
    modifies buf
    ensures buf[c] == old(Unmixed(buf[c], buf[c + 1], buf[c + 2], buf[c + 3]))
    ensures buf[c + 1] == old(Unmixed(buf[c + 1], buf[c + 2], buf[c + 3], buf[c]))
    ensures buf[c + 2] == old(Unmixed(buf[c + 2], buf[c + 3], buf[c], buf[c + 1]))
    ensures buf[c + 3] == old(Unmixed(buf[c + 3], buf[c], buf[c + 1], buf[c + 2]))
    ensures forall k :: 0 <= k < buf.Length && !(c <= k < c + 4) ==> buf[k] == old(buf[k])
  {
    hide Unmixed;
    var x, y, z, w := buf[c], buf[c + 1], buf[c + 2], buf[c + 3];
    buf[c] := UnmixedSum(x, y, z, w);
    buf[c + 1] := UnmixedSum(y, z, w, x);
    buf[c + 2] := UnmixedSum(z, w, x, y);
    buf[c + 3] := UnmixedSum(w, x, y, z);
  }

  // The source's four-term exclusive or, from left to right.
  function UnmixedSum(x: bv8, y: bv8, z: bv8, w: bv8): (r: bv8)
    ensures r == Unmixed(x, y, z, w)
  {
    var a, b, c, d := Multiply(x, 0x0e), Multiply(y, 0x0b), Multiply(z, 0x0d), Multiply(w, 0x09);
    assert Xor(Xor(Xor(a, b), c), d) == Sum(a, b, c, d) by { hide Xor, Multiply; Assoc(Xor(a, b), c, d); }
    Xor(Xor(Xor(a, b), c), d)
  }

  // One column of MixColumns, through the source's three temporaries.
  method MixColumn(buf: array<bv8>, c: nat)
    requires c + 4 <= buf.Length
    modifies buf
    ensures buf[c] == old(Mixed(buf[c], buf[c + 1], buf[c + 2], buf[c + 3]))
    ensures buf[c + 1] == old(Mixed(buf[c + 1], buf[c + 2], buf[c + 3], buf[c]))
    ensures buf[c + 2] == old(Mixed(buf[c + 2], buf[c + 3], buf[c], buf[c + 1]))
    ensures buf[c + 3] == old(Mixed(buf[c + 3], buf[c], buf[c + 1], buf[c + 2]))
    ensures forall k :: 0 <= k < buf.Length && !(c <= k < c + 4) ==> buf[k] == old(buf[k])
  {
    hide XTime, Xor;
    ghost var a0, a1, a2, a3 := buf[c], buf[c + 1], buf[c + 2], buf[c + 3];
    var t := buf[c];
    var tmp := Xor(Xor(Xor(buf[c], buf[c + 1]), buf[c + 2]), buf[c + 3]);
    Assoc(Xor(a0, a1), a2, a3);
    Rotated(a0, a1, a2, a3);
    Rotated(a1, a2, a3, a0);
    Rotated(a2, a3, a0, a1);
    var tm := Xor(buf[c], buf[c + 1]);
    tm := XTime(tm);
    buf[c] := Xor(buf[c], Xor(tm, tmp));
    tm := Xor(buf[c + 1], buf[c + 2]);
    tm := XTime(tm);
    buf[c + 1] := Xor(buf[c + 1], Xor(tm, tmp));
    tm := Xor(buf[c + 2], buf[c + 3]);
    tm := XTime(tm);
    buf[c + 2] := Xor(buf[c + 2], Xor(tm, tmp));
    tm := Xor(buf[c + 3], t);
    tm := XTime(tm);
    buf[c + 3] := Xor(buf[c + 3], Xor(tm, tmp));
  }

  method RoundAt(buf: array<bv8>, off: nat, w: array<bv8>, round: nat)
    requires off + 16 <= buf.Length && w.Length == 176 && round <= ROUNDS && buf != w
    modifies buf
    ensures SameOutside(old(buf[..]), buf[..], off)
    ensures Block(buf[..], off) == Round(old(Block(buf[..], off)), w[..], round)
  {
    hide SubBytes, ShiftRows, MixColumns, AddRoundKey, Block;
    SubBytesAt(buf, off);
    ShiftRowsAt(buf, off);
    MixColumnsAt(buf, off);
    AddRoundKeyAt(buf, off, w, round);
  }

  method CipherAt(buf: array<bv8>, off: nat, w: array<bv8>)
    requires off + 16 <= buf.Length && w.Length == 176 && buf != w
    modifies buf
    ensures SameOutside(old(buf[..]), buf[..], off)
    ensures Block(buf[..], off) == Cipher(old(Block(buf[..], off)), w[..])
  {
    hide SubBytes, ShiftRows, Round, AddRoundKey, Block;
    ghost var s := Block(buf[..], off);
    AddRoundKeyAt(buf, off, w, 0);
    for round := 1 to ROUNDS
      invariant SameOutside(old(buf[..]), buf[..], off)
      invariant Block(buf[..], off) == Rounds(s, w[..], round - 1)
    {
      RoundAt(buf, off, w, round);
    }
    SubBytesAt(buf, off);
    ShiftRowsAt(buf, off);
    AddRoundKeyAt(buf, off, w, ROUNDS);
  }

  method InvRoundAt(buf: array<bv8>, off: nat, w: array<bv8>, round: nat)
    requires off + 16 <= buf.Length && w.Length == 176 && round <= ROUNDS && buf != w
    modifies buf
    ensures SameOutside(old(buf[..]), buf[..], off)
    ensures Block(buf[..], off) == InvRound(old(Block(buf[..], off)), w[..], round)
  {
    hide InvSubBytes, InvShiftRows, InvMixColumns, AddRoundKey, Block;
    InvShiftRowsAt(buf, off);
    InvSubBytesAt(buf, off);
    AddRoundKeyAt(buf, off, w, round);
    InvMixColumnsAt(buf, off);
  }

  method InvCipherAt(buf: array<bv8>, off: nat, w: array<bv8>)
    requires off + 16 <= buf.Length && w.Length == 176 && buf != w
    modifies buf
    ensures SameOutside(old(buf[..]), buf[..], off)
    ensures Block(buf[..], off) == InvCipher(old(Block(buf[..], off)), w[..])
  {
    hide InvSubBytes, InvShiftRows, InvRound, AddRoundKey, Block;
    AddRoundKeyAt(buf, off, w, ROUNDS);
    ghost var result := InvRounds(Block(buf[..], off), w[..], ROUNDS - 1);
    var round: nat := ROUNDS - 1;
    while round > 0
      invariant round <= ROUNDS - 1
      invariant SameOutside(old(buf[..]), buf[..], off)
      invariant InvRounds(Block(buf[..], off), w[..], round) == result
    {
      InvRoundAt(buf, off, w, round);
      round := round - 1;
    }
    InvShiftRowsAt(buf, off);
    InvSubBytesAt(buf, off);
    AddRoundKeyAt(buf, off, w, 0);
  }

  // The four bytes of word i are t.
  ghost predicate WordAt(h: seq<bv8>, i: nat, t: Word)
    requires 4 * i + 4 <= |h|
  {
    h[4 * i] == t[0] && h[4 * i + 1] == t[1] && h[4 * i + 2] == t[2] && h[4 * i + 3] == t[3]
  }

  method KeyExpansion(w: array<bv8>, key: State)
    requires w.Length == 176
    modifies w
    ensures forall i :: 0 <= i < 44 ==> WordAt(w[..], i, ExpandedWord(key, i))
    ensures KeySchedule(w[..], key)
  {
    hide Sub, Xor, ExpandedWord, ScheduleStep;
    for i := 0 to 4
      invariant forall m :: 0 <= m < i ==> WordAt(w[..], m, ExpandedWord(key, m))
    {
      FirstWord(w, key, i);
    }
    for i := 4 to 44
      invariant forall m :: 0 <= m < i ==> WordAt(w[..], m, ExpandedWord(key, m))
    {
      NextWord(w, key, i);
    }
    KeyFirst(w[..], key);
    forall i | 4 <= i < 44 ensures ScheduleStep(w[..], i) { StepHolds(w[..], key, i); }
  }

  lemma KeyFirst(w: seq<bv8>, key: State)
    requires |w| == 176 && forall i :: 0 <= i < 4 ==> WordAt(w, i, ExpandedWord(key, i))
    ensures w[..16] == key
  {
    FirstWords(key, 0);
    FirstWords(key, 1);
    FirstWords(key, 2);
    FirstWords(key, 3);
    hide ExpandedWord;
    assert WordAt(w, 0, ExpandedWord(key, 0)) && WordAt(w, 1, ExpandedWord(key, 1));
    assert WordAt(w, 2, ExpandedWord(key, 2)) && WordAt(w, 3, ExpandedWord(key, 3));
    SixteenEqual(w[..16], key);
  }

  lemma StepHolds(w: seq<bv8>, key: State, i: nat)
    requires |w| == 176 && 4 <= i < 44 && forall m :: 0 <= m < 44 ==> WordAt(w, m, ExpandedWord(key, m))
    ensures ScheduleStep(w, i)
  {
    ExpandsTo(key, i);
    hide Sub, Xor, ExpandedWord, Rcon;
    assert WordAt(w, i, ExpandedWord(key, i)) && WordAt(w, i - 1, ExpandedWord(key, i - 1)) && WordAt(w, i - 4, ExpandedWord(key, i - 4));
  }

  method FirstWord(w: array<bv8>, key: State, i: nat)
    requires w.Length == 176 && i < 4
    modifies w
    ensures WordAt(w[..], i, ExpandedWord(key, i))
    ensures forall k :: 0 <= k < 4 * i ==> w[k] == old(w[k])
  {
    hide ExpandedWord;
    FirstWords(key, i);
    StoreWord(w, 4 * i, key[4 * i], key[4 * i + 1], key[4 * i + 2], key[4 * i + 3]);
  }

  lemma FirstWords(key: State, i: nat)
    requires i < 4
    ensures ExpandedWord(key, i) == key[4 * i..4 * i + 4]
  {
  }

  lemma ExpandsTo(key: State, i: nat)
    requires 4 <= i < 44
    ensures var u, back, r := Scheduled(ExpandedWord(key, i - 1), i), ExpandedWord(key, i - 4), ExpandedWord(key, i);
      r[0] == Xor(back[0], u[0]) && r[1] == Xor(back[1], u[1]) && r[2] == Xor(back[2], u[2]) && r[3] == Xor(back[3], u[3])
  {
    hide Sub, Xor, Scheduled;
  }

  // The source's loop body on the four temporary bytes: every fourth word is rotated, substituted
  // and given its round constant.
  method ScheduleBytes(t: Word, i: nat) returns (a0: bv8, a1: bv8, a2: bv8, a3: bv8)
    requires i < 44
    ensures [a0, a1, a2, a3] == Scheduled(t, i)
  {
    hide Sub, Xor, Rcon;
    a0, a1, a2, a3 := t[0], t[1], t[2], t[3];
    if i % 4 == 0 {
      var k := a0;
      a0 := Xor(Sub(a1), Rcon(i / 4));
      a1 := Sub(a2);
      a2 := Sub(a3);
      a3 := Sub(k);
    }
  }

  method NextWord(w: array<bv8>, key: State, i: nat)
    requires w.Length == 176 && 4 <= i < 44
    requires WordAt(w[..], i - 1, ExpandedWord(key, i - 1)) && WordAt(w[..], i - 4, ExpandedWord(key, i - 4))
    modifies w
    ensures WordAt(w[..], i, ExpandedWord(key, i))
    ensures forall k :: 0 <= k < 4 * i ==> w[k] == old(w[k])
  {
    hide Sub, Xor, ExpandedWord, Rcon, Scheduled;
    ExpandsTo(key, i);
    var n, p, q := 4 * i, 4 * (i - 1), 4 * (i - 4);
    var tempa: Word := [w[p], w[p + 1], w[p + 2], w[p + 3]];
    assert tempa == ExpandedWord(key, i - 1);
    var a0, a1, a2, a3 := ScheduleBytes(tempa, i);
    StoreWord(w, n, Xor(w[q], a0), Xor(w[q + 1], a1), Xor(w[q + 2], a2), Xor(w[q + 3], a3));
  }

  method StoreWord(w: array<bv8>, n: nat, a0: bv8, a1: bv8, a2: bv8, a3: bv8)
    requires n + 4 <= w.Length
    modifies w
    ensures w[n] == a0 && w[n + 1] == a1 && w[n + 2] == a2 && w[n + 3] == a3
    ensures forall k :: 0 <= k < w.Length && !(n <= k < n + 4) ==> w[k] == old(w[k])
  {
    w[n] := a0;
    w[n + 1] := a1;
    w[n + 2] := a2;
    w[n + 3] := a3;
  }

  // ---- The public interface ----

  lemma OneBlock(x: State, iv: State, w: RoundKeys)
    ensures Encrypted(x, iv, w) == Cipher(XorState(x, iv), w)
    ensures Decrypted(x, iv, w) == XorState(InvCipher(x, w), iv)
  {
    hide Cipher, InvCipher, XorState;
    assert x[..16] == x && x[16..] == [];
  }

  // One more block of a buffer.
  lemma NextBlock(h: seq<bv8>, i: nat, iv: State, w: RoundKeys)
    requires i % 16 == 0 && i + 16 <= |h|
    ensures var c := Cipher(XorState(h[i..i + 16], LastBlock(Encrypted(h[..i], iv, w), iv)), w);
      Encrypted(h[..i + 16], iv, w) == Encrypted(h[..i], iv, w) + c
    ensures Decrypted(h[..i + 16], iv, w)
         == Decrypted(h[..i], iv, w) + XorState(InvCipher(h[i..i + 16], w), LastBlock(h[..i], iv))
  {
    hide Cipher, InvCipher, XorState, Encrypted, Decrypted, LastBlock;
    var x: State := h[i..i + 16];
    assert h[..i + 16] == h[..i] + x;
    EncryptionSplits(h[..i], x, iv, w);
    DecryptionSplits(h[..i], x, iv, w);
    OneBlock(x, LastBlock(Encrypted(h[..i], iv, w), iv), w);
    OneBlock(x, LastBlock(h[..i], iv), w);
  }

  method XorWithIv(buf: array<bv8>, off: nat, iv: array<bv8>, ivOff: nat)
    requires off + 16 <= buf.Length && ivOff + 16 <= iv.Length
    requires buf != iv || ivOff + 16 <= off
    modifies buf
    ensures SameOutside(old(buf[..]), buf[..], off)
    ensures Block(buf[..], off) == XorState(old(Block(buf[..], off)), old(Block(iv[..], ivOff)))
  {
    hide Xor;
    ghost var h, v := buf[..], iv[..];
    for i := 0 to 16
      invariant forall k :: 0 <= k < buf.Length && !(off <= k < off + i) ==> buf[k] == h[k]
      invariant forall k :: off <= k < off + i ==> buf[k] == Xor(h[k], v[ivOff + k - off])
      invariant forall k :: ivOff <= k < ivOff + 16 ==> iv[k] == v[k]
    {
      buf[off + i] := Xor(buf[off + i], iv[ivOff + i]);
    }
  }

  method CopyBlock(dst: array<bv8>, src: array<bv8>, off: nat)
    requires dst.Length == 16 && off + 16 <= src.Length && (dst == src ==> off == 0)
    modifies dst
    ensures dst[..] == old(Block(src[..], off))
  {
    ghost var h := src[..];
    for i := 0 to 16
      invariant forall k :: 0 <= k < i ==> dst[k] == h[off + k]
      invariant dst != src ==> src[..] == h
      invariant dst == src ==> dst[..] == h
    {
      dst[i] := src[off + i];
    }
  }

  // A block rewritten in place extends the finished prefix by that block.
  lemma Extended(before: seq<bv8>, after: seq<bv8>, h: seq<bv8>, i: nat)
    requires i + 16 <= |before| == |h| && SameOutside(before, after, i) && before[i..] == h[i..]
    ensures after[..i + 16] == before[..i] + Block(after, i)
    ensures after[i + 16..] == h[i + 16..]
    ensures Block(before, i) == h[i..i + 16]
  {
    forall k | i + 16 <= k < |h| ensures after[k] == h[k] { assert before[i..][k - i] == h[i..][k - i]; }
    forall k | i <= k < i + 16 ensures before[k] == h[k] { assert before[i..][k - i] == h[i..][k - i]; }
  }

  class Context {
    const roundKey: array<bv8>
    const iv: array<bv8>

    ghost predicate Valid()
    {
      roundKey.Length == 176 && iv.Length == 16 && roundKey != iv
    }

    constructor (key: State, iv0: State)
      ensures Valid() && fresh(roundKey) && fresh(iv)
      ensures iv[..] == iv0
      ensures KeySchedule(roundKey[..], key)
    {
      roundKey := new bv8[176];
      iv := new bv8[16](k requires 0 <= k < 16 => iv0[k]);
      new;
      KeyExpansion(roundKey, key);
    }

    // The chaining value is read through a pointer: first the context's, then the last block written.
    method CbcEncryptBuffer(buf: array<bv8>)
      requires Valid() && buf != roundKey && buf != iv && buf.Length % 16 == 0
      modifies buf, iv
      ensures buf[..] == Encrypted(old(buf[..]), old(iv[..]), roundKey[..])
      ensures iv[..] == LastBlock(buf[..], old(iv[..]))
    {
      hide Encrypted, LastBlock, Block;
      ghost var h, iv0 := buf[..], iv[..];
      var ivAt, ivOff, i := iv, 0, 0;
      Nothing(h, iv0, roundKey[..]);
      while i < buf.Length
        invariant i % 16 == 0 && i <= buf.Length
        invariant iv[..] == iv0 && (if i == 0 then ivAt == iv && ivOff == 0 else ivAt == buf && ivOff == i - 16)
        invariant buf[..i] == Encrypted(h[..i], iv0, roundKey[..]) && buf[i..] == h[i..]
        invariant Block(ivAt[..], ivOff) == LastBlock(buf[..i], iv0)
      {
        EncryptBlock(buf, i, ivAt, ivOff, h, iv0);
        ivAt, ivOff := buf, i;
        i := i + 16;
      }
      assert buf[..i] == buf[..] && h[..i] == h;
      CopyBlock(iv, ivAt, ivOff);
    }

    // The loop body: chain, encrypt, and leave the pointer to this block.
    method EncryptBlock(buf: array<bv8>, i: nat, ivAt: array<bv8>, ivOff: nat, ghost h: seq<bv8>, ghost iv0: State)
      requires Valid() && buf != roundKey && ivAt != roundKey
      requires i % 16 == 0 && i + 16 <= buf.Length == |h| && ivOff + 16 <= ivAt.Length && (ivAt != buf || ivOff + 16 <= i)
      requires buf[..i] == Encrypted(h[..i], iv0, roundKey[..]) && buf[i..] == h[i..]
      requires Block(ivAt[..], ivOff) == LastBlock(buf[..i], iv0)
      modifies buf
      ensures buf[..i + 16] == Encrypted(h[..i + 16], iv0, roundKey[..]) && buf[i + 16..] == h[i + 16..]
      ensures Block(buf[..], i) == LastBlock(buf[..i + 16], iv0)
    {
      hide Cipher, XorState, Encrypted, LastBlock, SameOutside;
      ghost var before := buf[..];
      XorWithIv(buf, i, ivAt, ivOff);
      ghost var mid := buf[..];
      CipherAt(buf, i, roundKey);
      Outside(before, mid, buf[..], i);
      Extended(before, buf[..], h, i);
      NextBlock(h, i, iv0, roundKey[..]);
      LastOfBoth(before[..i], Block(buf[..], i), iv0);
      OneLast(Block(buf[..], i), LastBlock(before[..i], iv0));
    }

    method CbcDecryptBuffer(buf: array<bv8>)
      requires Valid() && buf != roundKey && buf != iv && buf.Length % 16 == 0
      modifies buf, iv
      ensures buf[..] == Decrypted(old(buf[..]), old(iv[..]), roundKey[..])
      ensures iv[..] == LastBlock(old(buf[..]), old(iv[..]))
    {
      hide Decrypted, LastBlock;
      ghost var h, iv0 := buf[..], iv[..];
      var storeNextIv := new bv8[16];
      var i := 0;
      Nothing(h, iv0, roundKey[..]);
      while i < buf.Length
        invariant i % 16 == 0 && i <= buf.Length
        invariant buf[..i] == Decrypted(h[..i], iv0, roundKey[..]) && buf[i..] == h[i..]
        invariant iv[..] == LastBlock(h[..i], iv0)
      {
        DecryptBlock(buf, i, storeNextIv, h, iv0);
        i := i + 16;
      }
      assert buf[..i] == buf[..] && h[..i] == h;
    }

    method DecryptBlock(buf: array<bv8>, i: nat, storeNextIv: array<bv8>, ghost h: seq<bv8>, ghost iv0: State)
      requires Valid() && buf != roundKey && buf != iv && storeNextIv.Length == 16
      requires storeNextIv != buf && storeNextIv != iv && storeNextIv != roundKey
      requires i % 16 == 0 && i + 16 <= buf.Length == |h|
      requires buf[..i] == Decrypted(h[..i], iv0, roundKey[..]) && buf[i..] == h[i..]
      requires iv[..] == LastBlock(h[..i], iv0)
      modifies buf, iv, storeNextIv
      ensures buf[..i + 16] == Decrypted(h[..i + 16], iv0, roundKey[..]) && buf[i + 16..] == h[i + 16..]
      ensures iv[..] == LastBlock(h[..i + 16], iv0)
    {
      hide InvCipher, XorState, Decrypted, LastBlock, SameOutside;
      ghost var before, v := buf[..], iv[..];
      CopyBlock(storeNextIv, buf, i);
      InvCipherAt(buf, i, roundKey);
      ghost var mid := buf[..];
      assert Block(iv[..], 0) == v;
      XorWithIv(buf, i, iv, 0);
      assert Block(storeNextIv[..], 0) == storeNextIv[..];
      CopyBlock(iv, storeNextIv, 0);
      Outside(before, mid, buf[..], i);
      Extended(before, buf[..], h, i);
      NextBlock(h, i, iv0, roundKey[..]);
      assert h[..i + 16] == h[..i] + h[i..i + 16];
      LastOfBoth(h[..i], h[i..i + 16], iv0);
      OneLast(h[i..i + 16], LastBlock(h[..i], iv0));
    }
  }

  lemma Outside(a: seq<bv8>, b: seq<bv8>, c: seq<bv8>, off: nat)
    requires SameOutside(a, b, off) && SameOutside(b, c, off)
    ensures SameOutside(a, c, off)
  {
  }

  lemma Nothing(h: seq<bv8>, iv: State, w: RoundKeys)
    ensures h[..0] == [] && h[0..] == h
    ensures Encrypted(h[..0], iv, w) == [] && Decrypted(h[..0], iv, w) == []
    ensures LastBlock(h[..0], iv) == iv && Block(iv, 0) == iv
  {
  }
}
