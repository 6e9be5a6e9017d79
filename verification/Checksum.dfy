/**
 The Internet checksum of drivers/net.c: the 32-bit accumulating loop, the one's complement sum
 of section 1 of RFC 1071 it stands for, and when checking a stored checksum gives zero.
 */
module Checksum {
  const TWO32: nat := 0x1_0000_0000

  type byte = x: int | 0 <= x < 256

  // The sum of the little-endian 16-bit words; a last odd byte counts as a word of its own.
  function WordSum(d: seq<byte>): nat {
    if d == [] then 0
    else if |d| == 1 then d[0]
    else d[0] as nat + 256 * (d[1] as nat) + WordSum(d[2..])
  }

  // Add the upper half to the lower until nothing is left above sixteen bits.
  function Fold(s: nat): (r: nat)
    ensures r < 0x1_0000
    decreases s
  {
    if s < 0x1_0000 then s else Fold(s % 0x1_0000 + s / 0x1_0000)
  }

  // What the loop returns for a sum, which its accumulator holds in 32 bits.
  function Complemented(sum: nat): (c: nat)
    ensures c < 0x1_0000
  {
    0xFFFF - Fold(sum % TWO32)
  }

  function Checksum(d: seq<byte>): (c: nat)
    ensures c < 0x1_0000
  {
    Complemented(WordSum(d))
  }

  // net_checksum
  method NetChecksum(data: seq<byte>) returns (c: nat)
    ensures c == Checksum(data)
  {
    hide Fold;
    var s: nat, p: nat := 0, 0;
    assert data[0..] == data;
    while |data| - p > 1
      invariant 0 <= p <= |data| && s < TWO32 && (s + WordSum(data[p..])) % TWO32 == WordSum(data) % TWO32
    {
      var word := data[p] as nat + 256 * (data[p + 1] as nat);
      assert data[p..][2..] == data[p + 2..];
      WrapSum(s, word, WordSum(data[p + 2..]));
      s := (s + word) % TWO32;
      p := p + 2;
    }
    if |data| - p == 1 {
      WrapSum(s, data[p], 0);
      s := (s + data[p]) % TWO32;
    }
    s := FoldDown(s);
    c := 0xFFFF - s;
  }

  // The second loop.
  method FoldDown(sum: nat) returns (s: nat)
    ensures s == Fold(sum)
  {
    s := sum;
    while s >= 0x1_0000
      invariant Fold(s) == Fold(sum)
    {
      s := s % 0x1_0000 + s / 0x1_0000;
    }
  }

  lemma WrapSum(s: nat, w: nat, rest: nat)
    ensures ((s + w) % TWO32 + rest) % TWO32 == (s + w + rest) % TWO32
  {
  }

  // ---- What folding computes ----

  // The remainder modulo 65535, with 65535 in place of a zero that comes from a positive sum.
  lemma {:induction false} FoldIsRemainder(s: nat)
    ensures Fold(s) % 0xFFFF == s % 0xFFFF && (Fold(s) == 0 <==> s == 0)
    decreases s
  {
    if s >= 0x1_0000 {
      var t := s % 0x1_0000 + s / 0x1_0000;
      SameRemainder(s);
      FoldIsRemainder(t);
    }
  }

  lemma SameRemainder(s: nat)
    ensures (s % 0x1_0000 + s / 0x1_0000) % 0xFFFF == s % 0xFFFF
  {
    var h := s / 0x1_0000;
    assert s == (s % 0x1_0000 + h) + 0xFFFF * h;
    MulMod(s % 0x1_0000 + h, h);
  }

  lemma MulMod(a: nat, h: nat)
    ensures (a + 0xFFFF * h) % 0xFFFF == a % 0xFFFF
  {
  }

  // Sixteen-bit addition with end-around carry.
  function OnesAdd(a: nat, b: nat): (r: nat)
    requires a < 0x1_0000 && b < 0x1_0000
    ensures r < 0x1_0000
  {
    if a + b > 0xFFFF then a + b - 0xFFFF else a + b
  }

  // The one's complement sum of RFC 1071.
  function OnesSum(d: seq<byte>): (r: nat)
    ensures r < 0x1_0000
  {
    if d == [] then 0
    else if |d| == 1 then d[0]
    else OnesAdd(d[0] as nat + 256 * (d[1] as nat), OnesSum(d[2..]))
  }

  lemma {:induction false} OnesSumIsRemainder(d: seq<byte>)
    ensures OnesSum(d) % 0xFFFF == WordSum(d) % 0xFFFF && (OnesSum(d) == 0 <==> WordSum(d) == 0)
    decreases |d|
  {
    if |d| > 1 {
      OnesSumIsRemainder(d[2..]);
      var w := d[0] as nat + 256 * (d[1] as nat);
      AddMod(w, OnesSum(d[2..]), WordSum(d[2..]));
    }
  }

  lemma AddMod(w: nat, a: nat, b: nat)
    requires a % 0xFFFF == b % 0xFFFF
    ensures (w + a) % 0xFFFF == (w + b) % 0xFFFF && (a + w >= 0xFFFF ==> (w + a - 0xFFFF) % 0xFFFF == (w + b) % 0xFFFF)
  {
  }

  // While the accumulator does not overflow the loop computes the complement of the RFC's sum.
  lemma ChecksumIsOnesComplement(d: seq<byte>)
    requires WordSum(d) < TWO32
    ensures Checksum(d) == 0xFFFF - OnesSum(d)
  {
    OnesSumIsRemainder(d);
    hide WordSum, OnesSum, Fold;
    FoldIsRemainder(WordSum(d));
    SmallEqual(Fold(WordSum(d)), OnesSum(d));
  }

  lemma SmallEqual(a: nat, b: nat)
    requires a < 0x1_0000 && b < 0x1_0000 && a % 0xFFFF == b % 0xFFFF && (a == 0 <==> b == 0)
    ensures a == b
  {
  }

  // ---- Storing a checksum and checking it ----

  // The two bytes a 16-bit store writes.
  function Stored(d: seq<byte>, k: nat, c: nat): seq<byte>
    requires k + 1 < |d| && c < 0x1_0000
  {
    d[k := c % 256][k + 1 := c / 256]
  }

  // Storing into a zero word adds the word to the sum.
  lemma {:induction false} StoredSum(d: seq<byte>, k: nat, c: nat)
    requires k % 2 == 0 && k + 1 < |d| && d[k] == 0 && d[k + 1] == 0 && c < 0x1_0000
    ensures WordSum(Stored(d, k, c)) == WordSum(d) + c
    decreases k
  {
    var e := Stored(d, k, c);
    if k == 0 {
      assert e[2..] == d[2..];
    } else {
      assert e[2..] == Stored(d[2..], k - 2, c);
      StoredSum(d[2..], k - 2, c);
    }
  }

  // Adding the checksum brings the accumulator to a positive multiple of 65535, and never past
  // 32 bits: 2^32 - 1 is such a multiple.
  lemma Complement(s: nat, f: nat, c: nat)
    requires s < TWO32 && f < 0x1_0000 && c == 0xFFFF - f && f % 0xFFFF == s % 0xFFFF && (f == 0 <==> s == 0)
    ensures 0 < s + c < TWO32 && (s + c) % 0xFFFF == 0
  {
    var q, r := s / 0xFFFF, s % 0xFFFF;
    assert s == 0xFFFF * q + r && TWO32 == 0xFFFF * 0x1_0001 + 1;
    if f == 0xFFFF {
      assert r == 0;
    } else {
      assert f == r && s + c == 0xFFFF * (q + 1);
      MulMod(0, q + 1);
    }
  }

  lemma ComplementedIsZero(sum: nat)
    ensures Complemented(sum + Complemented(sum)) == 0
  {
    var s, c := sum % TWO32, Complemented(sum);
    hide Fold;
    FoldIsRemainder(s);
    WrapSum(0, sum, c);
    Complement(s, Fold(s), c);
    FoldIsRemainder(s + c);
    SmallEqual(Fold(s + c), 0xFFFF);
  }

  // With the checksum stored in the word that was zero the check gives zero, whatever the length,
  // even where the accumulator wraps.
  lemma CheckSucceeds(d: seq<byte>, k: nat)
    requires k % 2 == 0 && k + 1 < |d| && d[k] == 0 && d[k + 1] == 0
    ensures Checksum(Stored(d, k, Checksum(d))) == 0
  {
    hide Complemented, WordSum, Stored;
    StoredSum(d, k, Checksum(d));
    ComplementedIsZero(WordSum(d));
  }

  // A checksum computed while its word still held an old value w checks out only by luck: exactly
  // when w was zero, or was 0xFFFF in a packet that is not otherwise all zeros.
  lemma StaleWord(d: seq<byte>, k: nat, w: nat)
    requires k % 2 == 0 && k + 1 < |d| < 2 * 65537 && d[k] == 0 && d[k + 1] == 0 && w < 0x1_0000
    ensures Checksum(Stored(d, k, Checksum(Stored(d, k, w)))) == 0 <==> w == 0 || (w == 0xFFFF && WordSum(d) > 0)
  {
    hide WordSum, Stored, Complemented;
    SumRoom(d, k);
    StoredSum(d, k, w);
    StoredSum(d, k, Checksum(Stored(d, k, w)));
    StaleSum(WordSum(d), w);
  }

  // The largest value of a zero word would still fit the accumulator.
  lemma SumRoom(d: seq<byte>, k: nat)
    requires k % 2 == 0 && k + 1 < |d| < 2 * 65537 && d[k] == 0 && d[k + 1] == 0
    ensures WordSum(d) + 0xFFFF < TWO32
  {
    hide WordSum;
    StoredSum(d, k, 0xFFFF);
    WordSumBound(Stored(d, k, 0xFFFF));
  }

  lemma StaleSum(r: nat, w: nat)
    requires w < 0x1_0000 && r + 0xFFFF < TWO32
    ensures Complemented(r + Complemented(r + w)) == 0 <==> w == 0 || (w == 0xFFFF && r > 0)
  {
    hide Fold;
    var c := Complemented(r + w);
    FoldIsRemainder(r + w);
    Complement(r + w, Fold(r + w), c);
    FoldIsRemainder(r + c);
    ZeroRemainder(r + c, w);
    if w == 0xFFFF && r == 0 { assert c == 0 by { FoldOfFull(); } }
  }

  lemma FoldOfFull()
    ensures Fold(0xFFFF) == 0xFFFF
  {
  }

  lemma ZeroRemainder(t: nat, w: nat)
    requires (t + w) % 0xFFFF == 0 && w < 0x1_0000
    ensures t % 0xFFFF == 0 <==> w == 0 || w == 0xFFFF
  {
  }

  lemma {:induction false} WordSumBound(d: seq<byte>)
    ensures 2 * WordSum(d) <= 0xFFFF * (|d| + 1) && (|d| % 2 == 0 ==> 2 * WordSum(d) <= 0xFFFF * |d|)
    decreases |d|
  {
    if |d| > 1 { WordSumBound(d[2..]); }
  }

  // Up to 65537 words the checksum is the RFC's.
  lemma SmallIsOnesComplement(d: seq<byte>)
    requires |d| < 2 * 65537
    ensures Checksum(d) == 0xFFFF - OnesSum(d)
  {
    WordSumBound(d);
    hide OnesSum, Checksum, WordSum;
    ChecksumIsOnesComplement(d);
  }

  // The example of section 3 of RFC 1071, in the byte order that gives the sum F2DD.
  lemma ExampleSum()
    ensures Checksum([0x00, 0x01, 0xf2, 0x03, 0xf4, 0xf5, 0xf6, 0xf7]) == 0xFFFF - 0xF2DD
  {
    NextWord(0xf6, 0xf7, []);
    NextWord(0xf4, 0xf5, [0xf6, 0xf7]);
    NextWord(0xf2, 0x03, [0xf4, 0xf5, 0xf6, 0xf7]);
    NextWord(0x00, 0x01, [0xf2, 0x03, 0xf4, 0xf5, 0xf6, 0xf7]);
    hide WordSum;
    var d: seq<byte> := [0x00, 0x01] + [0xf2, 0x03, 0xf4, 0xf5, 0xf6, 0xf7];
    assert d == [0x00, 0x01, 0xf2, 0x03, 0xf4, 0xf5, 0xf6, 0xf7];
    assert [0xf2, 0x03] + [0xf4, 0xf5, 0xf6, 0xf7] == [0xf2, 0x03, 0xf4, 0xf5, 0xf6, 0xf7];
    assert [0xf4, 0xf5] + [0xf6, 0xf7] == [0xf4, 0xf5, 0xf6, 0xf7] && [0xf6, 0xf7] + [] == [0xf6, 0xf7];
    assert WordSum(d) == 0x1_F2DC;
    assert Fold(0x1_F2DC) == 0xF2DD;
  }

  lemma NextWord(low: byte, high: byte, rest: seq<byte>)
    ensures WordSum([low, high] + rest) == low as nat + 256 * high as nat + WordSum(rest)
    ensures WordSum([]) == 0
  {
    assert ([low, high] + rest)[2..] == rest;
  }

  // Filling in a header's checksum word, as ip->checksum = net_checksum(ip, n) does.
  method Seal(header: array<byte>, k: nat)
    requires k % 2 == 0 && k + 1 < header.Length
    modifies header
    ensures Checksum(header[..]) == 0
    ensures forall i :: 0 <= i < header.Length && i != k && i != k + 1 ==> header[i] == old(header[i])
  {
    header[k], header[k + 1] := 0, 0;
    ghost var d := header[..];
    var c := NetChecksum(header[..]);
    header[k], header[k + 1] := c % 256, c / 256;
    assert header[..] == Stored(d, k, c);
    CheckSucceeds(d, k);
  }
}
