/**
 SHA-1 as sections 4 to 6 of FIPS 180-4 define it, on whole messages, and HMAC as section 2 of
 RFC 2104 defines it.  Messages of 2^61 bytes or more, which the standard excludes, get a length
 field reduced modulo 2^64.
 */
module Sha1Spec {
  const BLOCK: nat := 64
  const TWO64: nat := 0x1_0000_0000_0000_0000

  datatype Hash = Hash(a: bv32, b: bv32, c: bv32, d: bv32, e: bv32)

  function Initial(): Hash {
    Hash(0x67452301, 0xEFCDAB89, 0x98BADCFE, 0x10325476, 0xC3D2E1F0)
  }

  // ---- Words and bytes ----

  function Join4(b0: bv8, b1: bv8, b2: bv8, b3: bv8): bv32 {
    ((b0 as bv32) << 24) | ((b1 as bv32) << 16) | ((b2 as bv32) << 8) | (b3 as bv32)
  }

  function ByteOf(w: bv32, k: nat): bv8
    requires k < 4
  {
    if k == 0 then ((w >> 24) & 0xFF) as bv8
    else if k == 1 then ((w >> 16) & 0xFF) as bv8
    else if k == 2 then ((w >> 8) & 0xFF) as bv8
    else (w & 0xFF) as bv8
  }

  lemma JoinBytes(w: bv32)
    ensures Join4(ByteOf(w, 0), ByteOf(w, 1), ByteOf(w, 2), ByteOf(w, 3)) == w
  {
  }

  function WordAt(block: seq<bv8>, i: nat): bv32
    requires 4 * i + 4 <= |block|
  {
    Join4(block[4 * i], block[4 * i + 1], block[4 * i + 2], block[4 * i + 3])
  }

  function Rotl(v: bv32, n: nat): bv32
    requires 0 < n < 32
  {
    (v << n) | (v >> (32 - n))
  }

  // ---- One block ----

  // The first n words of the message schedule.
  function Schedule(block: seq<bv8>, n: nat): (ws: seq<bv32>)
    requires |block| == BLOCK && n <= 80
    ensures |ws| == n
  {
    if n == 0 then []
    else
      var ws := Schedule(block, n - 1);
      ws + [if n <= 16 then WordAt(block, n - 1) else Mix(ws[n - 4], ws[n - 9], ws[n - 15], ws[n - 17])]
  }

  function Mix(a: bv32, b: bv32, c: bv32, d: bv32): bv32 {
    Rotl(a ^ b ^ c ^ d, 1)
  }

  function Ch(x: bv32, y: bv32, z: bv32): bv32 {
    (x & y) ^ (!x & z)
  }

  function Parity(x: bv32, y: bv32, z: bv32): bv32 {
    x ^ y ^ z
  }

  function Maj(x: bv32, y: bv32, z: bv32): bv32 {
    (x & y) ^ (x & z) ^ (y & z)
  }

  function F(t: nat, x: bv32, y: bv32, z: bv32): bv32 {
    if t < 20 then Ch(x, y, z) else if t < 40 then Parity(x, y, z) else if t < 60 then Maj(x, y, z) else Parity(x, y, z)
  }

  function K(t: nat): bv32 {
    if t < 20 then 0x5A827999 else if t < 40 then 0x6ED9EBA1 else if t < 60 then 0x8F1BBCDC else 0xCA62C1D6
  }

  function Sum5(a: bv32, b: bv32, c: bv32, d: bv32, e: bv32): bv32 {
    a + b + c + d + e
  }

  function Round(h: Hash, t: nat, w: bv32): Hash {
    Hash(Sum5(Rotl(h.a, 5), F(t, h.b, h.c, h.d), h.e, K(t), w), h.a, Rotl(h.b, 30), h.c, h.d)
  }

  function Rounds(h: Hash, ws: seq<bv32>, n: nat): Hash
    requires n <= |ws|
  {
    if n == 0 then h else Round(Rounds(h, ws, n - 1), n - 1, ws[n - 1])
  }

  function Add(x: bv32, y: bv32): bv32 {
    x + y
  }

  function Plus(h: Hash, g: Hash): Hash {
    Hash(Add(h.a, g.a), Add(h.b, g.b), Add(h.c, g.c), Add(h.d, g.d), Add(h.e, g.e))
  }

  function Compress(h: Hash, block: seq<bv8>): Hash
    requires |block| == BLOCK
  {
    Plus(h, Rounds(h, Schedule(block, 80), 80))
  }

  // ---- Whole messages ----

  // The hash after n blocks of a message.
  function Absorb(h: Hash, m: seq<bv8>, n: nat): Hash
    requires BLOCK * n <= |m|
  {
    if n == 0 then h else Compress(Absorb(h, m, n - 1), m[BLOCK * (n - 1)..BLOCK * n])
  }

  // A right shift by k bytes.
  function ShiftBytes(x: nat, k: nat): nat {
    if k == 0 then x else ShiftBytes(x / 256, k - 1)
  }

  function Byte(n: nat): bv8
    requires n < 256
  {
    n as bv8
  }

  // The bit length as eight bytes, most significant first.
  function LengthField(bits: nat): (b: seq<bv8>)
    ensures |b| == 8
  {
    seq(8, i requires 0 <= i < 8 => Byte(ShiftBytes(bits, 7 - i) % 256))
  }

  // The least number of zeros that leaves room for the length at the end of a block.
  function PadZeros(n: nat): (k: nat)
    ensures k < 64 && (n + 1 + k) % 64 == 56
  {
    var k := (55 - (n % 64)) % 64;
    k
  }

  function Zeros(n: nat): (z: seq<bv8>)
    ensures |z| == n
  {
    seq(n, _ => 0)
  }

  lemma PaddedLength(n: nat, k: nat)
    requires (n + 1 + k) % 64 == 56
    ensures (n + 1 + k + 8) % 64 == 0
  {
  }

  // Section 5.1.1.
  function Pad(m: seq<bv8>): (p: seq<bv8>)
    ensures |p| % BLOCK == 0
  {
    var k := PadZeros(|m|);
    PaddedLength(|m|, k);
    var p := m + [0x80] + Zeros(k) + LengthField(8 * |m| % TWO64);
    assert |p| == |m| + 1 + k + 8;
    p
  }

  function Bytes(h: Hash): (d: seq<bv8>)
    ensures |d| == 20
  {
    WordBytes(h.a) + WordBytes(h.b) + WordBytes(h.c) + WordBytes(h.d) + WordBytes(h.e)
  }

  function WordBytes(w: bv32): (b: seq<bv8>)
    ensures |b| == 4
  {
    [ByteOf(w, 0), ByteOf(w, 1), ByteOf(w, 2), ByteOf(w, 3)]
  }

  function Digest(m: seq<bv8>): (d: seq<bv8>)
    ensures |d| == 20
  {
    Bytes(Absorb(Initial(), Pad(m), |Pad(m)| / BLOCK))
  }

  // ---- What the length field and the digest stand for ----

  // The number that digits spell in base 256.
  function ValueOf(d: seq<nat>): nat {
    if d == [] then 0 else 256 * ValueOf(d[..|d| - 1]) + d[|d| - 1]
  }

  function Pow256(k: nat): nat {
    if k == 0 then 1 else 256 * Pow256(k - 1)
  }

  // The k lowest digits, most significant first.
  function Digits(x: nat, k: nat): (d: seq<nat>)
    ensures |d| == k && forall i :: 0 <= i < k ==> d[i] < 256
  {
    if k == 0 then [] else Digits(x / 256, k - 1) + [x % 256]
  }

  lemma {:induction false} DigitsSpell(x: nat, k: nat)
    requires x < Pow256(k)
    ensures ValueOf(Digits(x, k)) == x
    decreases k
  {
    if k > 0 {
      var d := Digits(x / 256, k - 1);
      DigitsSpell(x / 256, k - 1);
      assert (d + [x % 256])[..|d + [x % 256]| - 1] == d;
    }
  }

  lemma {:induction false} DigitsAt(x: nat, k: nat, i: nat)
    requires i < k
    ensures Digits(x, k)[i] == ShiftBytes(x, k - 1 - i) % 256
    decreases k
  {
    if i < k - 1 { DigitsAt(x / 256, k - 1, i); }
  }

  // The bytes of the length field are digits that spell the length.
  lemma LengthSpells(bits: nat)
    requires bits < TWO64
    ensures ValueOf(Digits(bits, 8)) == bits
    ensures forall i :: 0 <= i < 8 ==> LengthField(bits)[i] == Byte(Digits(bits, 8)[i])
  {
    hide Byte;
    forall i | 0 <= i < 8 ensures LengthField(bits)[i] == Byte(Digits(bits, 8)[i]) {
      DigitsAt(bits, 8, i);
    }
    assert Pow256(8) == TWO64 by {
      assert Pow256(2) == 0x1_0000 && Pow256(4) == 0x1_0000 * Pow256(2) && Pow256(6) == 0x1_0000 * Pow256(4);
    }
    DigitsSpell(bits, 8);
  }

  // The digest spells the five words of the hash.
  lemma DigestWords(h: Hash)
    ensures var d := Bytes(h);
      WordAt(d, 0) == h.a && WordAt(d, 1) == h.b && WordAt(d, 2) == h.c && WordAt(d, 3) == h.d && WordAt(d, 4) == h.e
  {
    JoinBytes(h.a);
    JoinBytes(h.b);
    JoinBytes(h.c);
    JoinBytes(h.d);
    JoinBytes(h.e);
    hide ByteOf, Join4;
  }

  // ---- HMAC ----

  // A key longer than a block is replaced by its digest; then zeros fill the block.
  function KeyBlock(key: seq<bv8>): (k: seq<bv8>)
    ensures |k| == BLOCK
  {
    var short := if |key| > BLOCK then Digest(key) else key;
    short + Zeros(BLOCK - |short|)
  }

  function XorAll(k: seq<bv8>, x: bv8): (r: seq<bv8>)
    ensures |r| == |k|
  {
    seq(|k|, i requires 0 <= i < |k| => k[i] ^ x)
  }

  function Hmac(key: seq<bv8>, text: seq<bv8>): seq<bv8> {
    Digest(XorAll(KeyBlock(key), 0x5c) + Digest(XorAll(KeyBlock(key), 0x36) + text))
  }

  // Byte i of the key as HMAC uses it, zero past the end of a short one.
  function KeyByte(key: seq<bv8>, i: nat): bv8 {
    var k := if |key| > BLOCK then Digest(key) else key;
    if i < |k| then k[i] else 0
  }

  // Section 2 of RFC 2104: the key's bytes are combined with 0x36 for the inner hash and with 0x5C for
  // the outer one.
  lemma HmacPads(key: seq<bv8>, text: seq<bv8>, inner: seq<bv8>, outer: seq<bv8>)
    requires |inner| == |outer| == BLOCK
    requires forall i :: 0 <= i < BLOCK ==> inner[i] == KeyByte(key, i) ^ 0x36 && outer[i] == KeyByte(key, i) ^ 0x5C
    ensures Hmac(key, text) == Digest(outer + Digest(inner + text))
  {
    hide Digest;
    forall i | 0 <= i < BLOCK ensures KeyBlock(key)[i] == KeyByte(key, i) {}
    hide KeyByte, KeyBlock;
    assert inner == XorAll(KeyBlock(key), 0x36);
    assert outer == XorAll(KeyBlock(key), 0x5C);
  }
}
