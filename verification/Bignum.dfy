/**
 The multiply half of bignum_mul_mod (net/ssh.c): a schoolbook product of two 256-byte
 big-endian numbers into a 512-byte buffer, with 16-bit accumulators.
 */
module Bignum {
  const N: nat := 256

  type byte = x: int | 0 <= x < 256

  function Pow(k: nat): (p: nat)
    ensures p > 0
  {
    if k == 0 then 1 else 256 * Pow(k - 1)
  }

  // The number a string of bytes spells, most significant first.
  function Value(s: seq<byte>): nat {
    if s == [] then 0 else s[0] * Pow(|s| - 1) + Value(s[1..])
  }

  lemma {:induction false} PowSum(a: nat, b: nat)
    ensures Pow(a + b) == Pow(a) * Pow(b)
  {
    if a > 0 {
      PowSum(a - 1, b);
      MulAssoc(256, Pow(a - 1), Pow(b));
    }
  }

  lemma MulAssoc(x: nat, y: nat, z: nat)
    ensures (x * y) * z == x * (y * z)
  {
  }

  lemma {:induction false} ZerosValue(s: seq<byte>)
    requires forall i :: 0 <= i < |s| ==> s[i] == 0
    ensures Value(s) == 0
  {
    if s != [] { ZerosValue(s[1..]); }
  }

  // The value from position i on, in terms of that from i + 1 on.
  lemma ValueFrom(s: seq<byte>, i: nat)
    requires i < |s|
    ensures Value(s[i..]) == s[i] * Pow(|s| - 1 - i) + Value(s[i + 1..])
  {
    assert s[i..][1..] == s[i + 1..];
  }

  // ---- One digit of one row ----

  // The row for digit x of the first factor, standing `shift` places from the right, has been
  // added in from position p on; the carry waits at p.
  ghost predicate RowTo(was: seq<byte>, t: seq<byte>, b: seq<byte>, x: byte, shift: nat, p: nat, j: nat, carry: nat) {
    && |t| == |was| && p <= |t| && j <= |b| && carry <= 255 && |b| - j + shift == |t| - p
    && t[..p] == was[..p]
    && Value(t[p..]) + carry * Pow(|t| - p) == Value(was[p..]) + x * Value(b[j..]) * Pow(shift)
  }

  // prod is what the accumulator holds after the step; it fits sixteen bits.
  lemma RowStep(was: seq<byte>, t: seq<byte>, b: seq<byte>, x: byte, shift: nat, p: nat, j: nat, carry: nat, prod: nat)
    requires RowTo(was, t, b, x, shift, p, j, carry) && p > 0 && j > 0
    requires prod == x * b[j - 1] + t[p - 1] + carry
    ensures prod <= 65535 && prod / 256 <= 255
    ensures RowTo(was, t[p - 1 := prod % 256], b, x, shift, p - 1, j - 1, prod / 256)
  {
    ProductBound(x, b[j - 1]);
    var t' := t[p - 1 := prod % 256];
    var d, e := |t| - p, |b| - j;
    ValueFrom(t', p - 1);
    ValueFrom(was, p - 1);
    ValueFrom(b, j - 1);
    assert t'[p..] == t[p..] && t'[..p - 1] == was[..p - 1] && was[p - 1] == t[p - 1];
    PowSum(e, shift);
    Digit(x, b[j - 1], t[p - 1], carry, prod, Pow(d), Pow(e), Pow(shift), Value(b[j..]), Value(t[p..]), Value(was[p..]));
  }

  lemma ProductBound(x: byte, y: byte)
    ensures x * y <= 65025
  {
    assert x * y <= 255 * y by { assert (255 - x) * y >= 0; }
  }

  // The arithmetic of one step, with D the weight of the position, E that of the digit of b and S
  // that of the digit x.
  lemma Digit(x: nat, y: nat, kept: nat, carry: nat, prod: nat, D: nat, E: nat, S: nat, vb: nat, vt: nat, vw: nat)
    requires prod == x * y + kept + carry && D == E * S
    requires vt + carry * D == vw + x * vb * S
    ensures (prod % 256) * D + vt + (prod / 256) * (256 * D) == kept * D + vw + x * (y * E + vb) * S
  {
    var q, r := prod / 256, prod % 256;
    calc {
      r * D + vt + q * (256 * D);
      == { assert r * D + q * (256 * D) == (256 * q + r) * D; }
      prod * D + vt;
      == { assert (x * y + kept + carry) * D == x * y * D + kept * D + carry * D; }
      x * y * D + kept * D + (vt + carry * D);
      ==
      x * y * D + kept * D + vw + x * vb * S;
      == { Distribute(x, y, E, S, vb); }
      kept * D + vw + x * (y * E + vb) * S;
    }
  }

  lemma Distribute(x: nat, y: nat, E: nat, S: nat, vb: nat)
    ensures x * y * (E * S) + x * vb * S == x * (y * E + vb) * S
  {
    var yE := y * E;
    assert x * y * (E * S) == x * yE * S by {
      MulAssoc(x * y, E, S);
      MulAssoc(x, y, E);
    }
    assert x * (yE + vb) == x * yE + x * vb;
    assert (x * yE + x * vb) * S == x * yE * S + x * vb * S;
  }

  // ---- The loops ----

  // The rows for the digits from i on have been added up.
  ghost predicate RowsFrom(a: seq<byte>, b: seq<byte>, t: seq<byte>, i: nat) {
    && |a| == |b| == N && |t| == 2 * N && i <= N
    && (forall k :: 0 <= k < i ==> t[k] == 0)
    && Value(t[i..]) == Value(a[i..]) * Value(b)
  }

  // The product is exact: no accumulator overflows and the last carry of each row meets a zero.
  method Multiply(a: seq<byte>, b: seq<byte>, tmp: array<byte>)
    requires |a| == |b| == N && tmp.Length == 2 * N
    modifies tmp
    ensures Value(tmp[..]) == Value(a) * Value(b)
  {
    for k := 0 to tmp.Length
      invariant forall x :: 0 <= x < k ==> tmp[x] == 0
    {
      tmp[k] := 0;
    }
    NoRows(a, b, tmp[..]);
    hide RowsFrom, Value, Pow;
    var i := N - 1;
    while i >= 0
      invariant -1 <= i < N && RowsFrom(a, b, tmp[..], i + 1)
    {
      AddRow(a, b, tmp, i);
      i := i - 1;
    }
    AllRows(a, b, tmp[..]);
  }

  // One pass of the outer loop.
  method AddRow(a: seq<byte>, b: seq<byte>, tmp: array<byte>, i: nat)
    requires i < N && RowsFrom(a, b, tmp[..], i + 1)
    modifies tmp
    ensures RowsFrom(a, b, tmp[..], i)
  {
    hide RowTo, RowsFrom, Value, Pow;
    ghost var was := tmp[..];
    RowStarts(a, b, was, i);
    var carry: nat := 0;
    var j := N - 1;
    while j >= 0
      invariant -1 <= j < N && RowTo(was, tmp[..], b, a[i], N - 1 - i, i + j + 2, j + 1, carry)
    {
      carry := AddDigit(a[i], b, j, tmp, i + j + 1, carry, was, N - 1 - i);
      j := j - 1;
    }
    RowEnds(a, b, was, tmp[..], i, carry);
    tmp[i] := (tmp[i] + carry) % 256;
  }

  // One pass of the inner loop.
  method AddDigit(x: byte, b: seq<byte>, j: nat, tmp: array<byte>, at: nat, carry: nat, ghost was: seq<byte>, ghost shift: nat)
    returns (next: nat)
    requires RowTo(was, tmp[..], b, x, shift, at + 1, j + 1, carry) && j < |b| && at < tmp.Length
    modifies tmp
    ensures RowTo(was, tmp[..], b, x, shift, at, j, next)
  {
    hide RowTo;
    var sum: nat := x * b[j] + tmp[at] + carry;
    RowStep(was, tmp[..], b, x, shift, at + 1, j + 1, carry, sum);
    var prod := sum % 0x1_0000;
    tmp[at] := prod % 256;
    next := prod / 256;
  }

  lemma NoRows(a: seq<byte>, b: seq<byte>, t: seq<byte>)
    requires |a| == |b| == N && |t| == 2 * N && forall k :: 0 <= k < |t| ==> t[k] == 0
    ensures RowsFrom(a, b, t, N)
  {
    ZerosValue(t[N..]);
    assert a[N..] == [];
  }

  lemma AllRows(a: seq<byte>, b: seq<byte>, t: seq<byte>)
    requires RowsFrom(a, b, t, 0)
    ensures Value(t) == Value(a) * Value(b)
  {
    assert t[0..] == t && a[0..] == a;
  }

  lemma RowStarts(a: seq<byte>, b: seq<byte>, t: seq<byte>, i: nat)
    requires i < N && RowsFrom(a, b, t, i + 1)
    ensures |a| == |b| == N && |t| == 2 * N
    ensures RowTo(t, t, b, a[i], N - 1 - i, i + N + 1, N, 0)
  {
    assert b[N..] == [];
  }

  lemma RowEnds(a: seq<byte>, b: seq<byte>, was: seq<byte>, t: seq<byte>, i: nat, carry: nat)
    requires i < N && RowsFrom(a, b, was, i + 1) && |a| == |b| == N
    requires RowTo(was, t, b, a[i], N - 1 - i, i + 1, 0, carry)
    ensures carry <= 255 && |t| == 2 * N && t[i] == 0 && RowsFrom(a, b, t[i := carry], i)
  {
    hide Value, Pow;
    RowFront(was, t, i + 1);
    var t' := t[i := carry];
    assert b[0..] == b && t'[i + 1..] == t[i + 1..];
    ValueFrom(t', i);
    ValueFrom(a, i);
    RowSum(a[i], Value(b), Pow(N - 1 - i), Value(a[i + 1..]));
  }

  // The digits before the row are still zero.
  lemma RowFront(was: seq<byte>, t: seq<byte>, p: nat)
    requires p <= |t| == |was| && t[..p] == was[..p] && forall k :: 0 <= k < p ==> was[k] == 0
    ensures forall k :: 0 <= k < p ==> t[k] == 0
  {
    forall k | 0 <= k < p ensures t[k] == 0 { assert t[k] == t[..p][k] == was[..p][k]; }
  }

  lemma RowSum(x: nat, vb: nat, S: nat, va: nat)
    ensures va * vb + x * vb * S == (x * S + va) * vb
  {
    assert x * vb * S == x * S * vb by {
      MulAssoc(x, vb, S);
      MulAssoc(x, S, vb);
    }
    assert (x * S + va) * vb == x * S * vb + va * vb;
  }
}
