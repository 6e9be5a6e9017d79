/**
 The bit-level view of a byte string used by DEFLATE (section 3.1.1 of RFC 1951):
 bits are numbered from the least significant bit of each byte, and every bit past
 the end of the input reads as zero.  Masks and shifts are written as halvings and
 doublings, so that no proof needs non-linear arithmetic.
 */
module BitStream {

  type byte = x: int | 0 <= x < 256
  type bit = x: int | 0 <= x < 2

  function Pow2(n: nat): (r: nat)
    ensures r >= 1
  {
    if n == 0 then 1 else 2 * Pow2(n - 1)
  }

  // v << n
  function Shl(v: nat, n: nat): nat {
    if n == 0 then v else 2 * Shl(v, n - 1)
  }

  // v >> n
  function Shr(v: nat, n: nat): nat {
    if n == 0 then v else Shr(v, n - 1) / 2
  }

  // v & ((1 << n) - 1)
  function Low(v: nat, n: nat): nat {
    if n == 0 then 0 else v % 2 + 2 * Low(v / 2, n - 1)
  }

  lemma {:induction false} ShlZero(n: nat)
    ensures Shl(0, n) == 0
  {
    if n > 0 { ShlZero(n - 1); }
  }

  function Bit(s: seq<byte>, p: nat): bit {
    if p / 8 < |s| then Shr(s[p / 8], p % 8) % 2 else 0
  }

  // n bits from position p, first bit least significant (extra bits, header fields, bytes).
  function Field(s: seq<byte>, p: nat, n: nat): nat
    decreases n, p
  {
    if n == 0 then 0 else Bit(s, p) as int + 2 * Field(s, p + 1, n - 1)
  }

  // n bits from position p, first bit most significant (Huffman codes).
  function Code(s: seq<byte>, p: nat, n: nat): nat
    decreases n, p
  {
    if n == 0 then 0 else 2 * Code(s, p, n - 1) + Bit(s, p + n - 1)
  }

  lemma {:induction false} FieldSplit(s: seq<byte>, p: nat, a: nat, b: nat)
    ensures Field(s, p, a + b) == Field(s, p, a) + Shl(Field(s, p + a, b), a)
    decreases a
  {
    if a == 0 {
    } else {
      FieldSplit(s, p + 1, a - 1, b);
    }
  }

  // Masking and shifting a buffer of a + b bits takes the first a bits and leaves the rest.
  lemma {:induction false} TakeBits(s: seq<byte>, p: nat, a: nat, b: nat)
    ensures Low(Field(s, p, a + b), a) == Field(s, p, a)
    decreases a
  {
    if a == 0 {
    } else {
      TakeBits(s, p + 1, a - 1, b);
      var f := Field(s, p + 1, a - 1 + b);
      assert Field(s, p, a + b) == Bit(s, p) + 2 * f;
    }
  }

  lemma {:induction false} DropBits(s: seq<byte>, p: nat, a: nat, b: nat)
    ensures Shr(Field(s, p, a + b), a) == Field(s, p + a, b)
    decreases a
  {
    if a == 0 {
    } else {
      DropBits(s, p, a - 1, b + 1);
      assert Field(s, p + a - 1, b + 1) == Bit(s, p + a - 1) + 2 * Field(s, p + a, b);
    }
  }

  lemma FieldBit(s: seq<byte>, p: nat, n: nat, i: nat)
    requires i < n
    ensures Shr(Field(s, p, n), i) % 2 == Bit(s, p + i)
  {
    hide Shr, Bit;
    DropBits(s, p, i, n - i);
    assert Field(s, p + i, n - i) == Bit(s, p + i) + 2 * Field(s, p + i + 1, n - i - 1);
  }

  lemma {:induction false} ShrAll(v: nat, n: nat)
    requires v < Pow2(n)
    ensures Shr(v, n) == 0
  {
    if n == 0 {
    } else {
      ShrAll(v / 2, n - 1);
      ShrHalf(v, n - 1);
    }
  }

  lemma {:induction false} FieldInsideByte(s: seq<byte>, j: nat, k: nat)
    requires j < |s| && k <= 8
    ensures Field(s, 8 * j + k, 8 - k) == Shr(s[j], k)
    decreases 8 - k
  {
    if k == 8 {
      assert Pow2(8) == 256;
      ShrAll(s[j], 8);
    } else {
      FieldInsideByte(s, j, k + 1);
      assert (8 * j + k) / 8 == j && (8 * j + k) % 8 == k;
      assert Shr(s[j], k + 1) == Shr(s[j], k) / 2;
    }
  }

  // The reader's mask and shift: n bits out, the rest kept.
  lemma SplitBuffer(s: seq<byte>, p: nat, n: nat, buffered: nat)
    requires n <= buffered
    ensures Low(Field(s, p, buffered), n) == Field(s, p, n)
    ensures Shr(Field(s, p, buffered), n) == Field(s, p + n, buffered - n)
  {
    TakeBits(s, p, n, buffered - n);
    DropBits(s, p, n, buffered - n);
  }

  lemma {:induction false} CodeBound(s: seq<byte>, p: nat, n: nat)
    ensures Code(s, p, n) < Pow2(n)
  {
    if n > 0 { CodeBound(s, p, n - 1); }
  }

  // A byte fetched whole: the input byte, or zero past the end.
  lemma FieldByte(s: seq<byte>, j: nat)
    ensures Field(s, 8 * j, 8) == if j < |s| then s[j] else 0
  {
    hide Bit;
    if j < |s| {
      FieldInsideByte(s, j, 0);
    } else {
      PastEnd(s, 8 * j, 8);
    }
  }

  // Buffering one more byte.
  lemma FetchByte(s: seq<byte>, p: nat, n: nat, j: nat)
    requires p + n == 8 * j
    ensures Field(s, p, n + 8) == Field(s, p, n) + if j < |s| then Shl(s[j], n) else 0
  {
    FieldSplit(s, p, n, 8);
    FieldByte(s, j);
    ShlZero(n);
  }

  lemma {:induction false} PastEnd(s: seq<byte>, p: nat, n: nat)
    requires p >= 8 * |s|
    ensures Field(s, p, n) == 0 && Code(s, p, n) == 0
    decreases n
  {
    if n == 0 {
    } else {
      PastEnd(s, p + 1, n - 1);
      PastEnd(s, p, n - 1);
    }
  }

  // ---- Writing bits ----

  // The input holds exactly these bits from position p on.
  ghost predicate At(s: seq<byte>, p: nat, bits: seq<bit>)
    decreases |bits|
  {
    p + |bits| <= 8 * |s| && (bits == [] || (Bit(s, p) == bits[0] && At(s, p + 1, bits[1..])))
  }

  lemma {:induction false} AtConcat(s: seq<byte>, p: nat, a: seq<bit>, b: seq<bit>)
    requires At(s, p, a + b)
    ensures At(s, p, a) && At(s, p + |a|, b)
    decreases |a|
  {
    if a == [] {
      assert a + b == b;
    } else {
      assert (a + b)[1..] == a[1..] + b;
      AtConcat(s, p + 1, a[1..], b);
    }
  }

  lemma {:induction false} AtFromBits(s: seq<byte>, p: nat, bits: seq<bit>)
    requires p + |bits| <= 8 * |s| && forall i :: 0 <= i < |bits| ==> Bit(s, p + i) == bits[i]
    ensures At(s, p, bits)
    decreases |bits|
  {
    if bits != [] {
      assert Bit(s, p + 0) == bits[0];
      forall i | 0 <= i < |bits| - 1 ensures Bit(s, p + 1 + i) == bits[1..][i] {
        assert Bit(s, p + (1 + i)) == bits[1 + i];
      }
      AtFromBits(s, p + 1, bits[1..]);
    }
  }

  // The n low bits of v, least significant first.
  function FieldBits(v: nat, n: nat): (r: seq<bit>)
    ensures |r| == n
  {
    if n == 0 then [] else [v % 2] + FieldBits(v / 2, n - 1)
  }

  // The n low bits of v, most significant first.
  function CodeBits(v: nat, n: nat): (r: seq<bit>)
    ensures |r| == n
  {
    if n == 0 then [] else CodeBits(v / 2, n - 1) + [v % 2]
  }

  lemma {:induction false} FieldAt(s: seq<byte>, p: nat, v: nat, n: nat)
    requires At(s, p, FieldBits(v, n)) && v < Pow2(n)
    ensures Field(s, p, n) == v
    decreases n
  {
    if n == 0 {
    } else {
      AtConcat(s, p, [v % 2], FieldBits(v / 2, n - 1));
      FieldAt(s, p + 1, v / 2, n - 1);
    }
  }

  lemma {:induction false} CodeAt(s: seq<byte>, p: nat, v: nat, n: nat)
    requires At(s, p, CodeBits(v, n)) && v < Pow2(n)
    ensures Code(s, p, n) == v
  {
    if n == 0 {
    } else {
      AtConcat(s, p, CodeBits(v / 2, n - 1), [v % 2]);
      CodeAt(s, p, v / 2, n - 1);
    }
  }

  // Packing a bit string into bytes, the last byte zero-filled.
  function Value(bits: seq<bit>): (v: nat)
    ensures v < Pow2(|bits|)
  {
    if bits == [] then 0 else bits[0] as int + 2 * Value(bits[1..])
  }

  function PackByte(bits: seq<bit>): (v: byte)
    requires |bits| == 8
  {
    assert Pow2(4) == 16;
    assert Pow2(8) == 256;
    Value(bits)
  }

  function Pack(bits: seq<bit>): (s: seq<byte>)
    ensures |s| == (|bits| + 7) / 8
  {
    if |bits| == 0 then []
    else if |bits| < 8 then [PackByte(bits + seq(8 - |bits|, _ => 0))]
    else [PackByte(bits[..8])] + Pack(bits[8..])
  }

  lemma {:induction false} ShrHalf(v: nat, k: nat)
    ensures Shr(v / 2, k) == Shr(v, k + 1)
  {
    if k == 0 {
      assert Shr(v, 1) == Shr(v, 0) / 2;
    } else {
      ShrHalf(v, k - 1);
    }
  }

  lemma {:induction false} ValueBit(bits: seq<bit>, k: nat)
    requires k < |bits|
    ensures Shr(Value(bits), k) % 2 == bits[k]
  {
    var v, w := Value(bits), Value(bits[1..]);
    assert v == bits[0] + 2 * w;
    if k == 0 {
    } else {
      ValueBit(bits[1..], k - 1);
      ShrHalf(v, k - 1);
      assert v / 2 == w;
    }
  }

  lemma {:induction false} PackBit(bits: seq<bit>, tail: seq<byte>, i: nat)
    requires i < |bits|
    ensures Bit(Pack(bits) + tail, i) == bits[i]
  {
    var s := Pack(bits) + tail;
    var first := if |bits| < 8 then bits + seq(8 - |bits|, _ => 0) else bits[..8];
    assert s[0] == PackByte(first);
    if i < 8 {
      ValueBit(first, i);
    } else {
      PackBit(bits[8..], tail, i - 8);
      var t := Pack(bits[8..]) + tail;
      assert s == [s[0]] + t;
      assert i / 8 == (i - 8) / 8 + 1 && i % 8 == (i - 8) % 8;
    }
  }

  lemma PackAt(bits: seq<bit>, tail: seq<byte>)
    ensures At(Pack(bits) + tail, 0, bits)
  {
    forall i | 0 <= i < |bits| ensures Bit(Pack(bits) + tail, 0 + i) == bits[i] {
      PackBit(bits, tail, i);
    }
    AtFromBits(Pack(bits) + tail, 0, bits);
  }
}
