/**
 Run-length compression (bin/compress.c) and its inverse (bin/decompress.c): pairs of a count
 from 1 to 255 and a byte.
 */
module RunLength {
  type byte = x: int | 0 <= x < 256

  // How many bytes from position i on equal c, up to `max`.
  function RunAt(d: seq<byte>, i: nat, c: byte, max: nat): (n: nat)
    ensures n <= max && (i <= |d| ==> i + n <= |d|)
    decreases max
  {
    if max == 0 || i >= |d| || d[i] != c then 0 else 1 + RunAt(d, i + 1, c, max - 1)
  }

  // The pairs for the bytes from position i on.
  function Packed(d: seq<byte>, i: nat): (p: seq<byte>)
    decreases |d| - i
  {
    if i >= |d| then []
    else
      var n := 1 + RunAt(d, i + 1, d[i], 254);
      [n, d[i]] + Packed(d, i + n)
  }

  lemma {:induction false} RunIs(d: seq<byte>, i: nat, c: byte, max: nat)
    requires i <= |d|
    ensures var n := RunAt(d, i, c, max);
      && d[i..i + n] == Repeat(c, n)
      && (n < max && i + n < |d| ==> d[i + n] != c)
    decreases max
  {
    if max > 0 && i < |d| && d[i] == c {
      RunIs(d, i + 1, c, max - 1);
      var n := RunAt(d, i + 1, c, max - 1);
      assert d[i..i + 1 + n] == [d[i]] + d[i + 1..i + 1 + n];
      assert [c] + Repeat(c, n) == Repeat(c, n + 1);
    }
  }

  function Repeat(c: byte, n: nat): (r: seq<byte>)
    ensures |r| == n && forall i :: 0 <= i < n ==> r[i] == c
  {
    seq(n, _ => c)
  }

  // An odd byte at the end is ignored.
  function Unpacked(p: seq<byte>): seq<byte>
    decreases |p|
  {
    if |p| < 2 then [] else Repeat(p[1], p[0]) + Unpacked(p[2..])
  }

  // The run that a pair stands for, and what ends it.
  lemma FirstRun(d: seq<byte>, i: nat)
    requires i < |d|
    ensures var n := 1 + RunAt(d, i + 1, d[i], 254);
      && i + n <= |d| && n <= 255 && d[i..] == Repeat(d[i], n) + d[i + n..]
      && (n < 255 && i + n < |d| ==> d[i + n] != d[i])
  {
    var c, n := d[i], RunAt(d, i + 1, d[i], 254);
    RunIs(d, i + 1, c, 254);
    assert [c] + Repeat(c, n) == Repeat(c, n + 1);
    assert d[i..] == [d[i]] + d[i + 1..i + 1 + n] + d[i + 1 + n..];
  }

  lemma RunEnd(d: seq<byte>, i: nat)
    requires i < |d|
    ensures var n := 1 + RunAt(d, i + 1, d[i], 254);
      i + n <= |d| && n <= 255 && (n < 255 && i + n < |d| ==> d[i + n] != d[i])
  {
    RunIs(d, i + 1, d[i], 254);
  }

  lemma UnpackPair(n: byte, c: byte, rest: seq<byte>)
    ensures Unpacked([n, c] + rest) == Repeat(c, n) + Unpacked(rest)
  {
    assert ([n, c] + rest)[2..] == rest;
  }

  lemma {:induction false} UnpackUndoesPack(d: seq<byte>, i: nat)
    requires i <= |d|
    ensures Unpacked(Packed(d, i)) == d[i..]
    decreases |d| - i
  {
    if i < |d| {
      FirstRun(d, i);
      hide RunAt, Repeat, Unpacked;
      var n := 1 + RunAt(d, i + 1, d[i], 254);
      UnpackUndoesPack(d, i + n);
      UnpackPair(n, d[i], Packed(d, i + n));
    }
  }

  // Pairs only, counts in range, and a run is cut only where its count is full.
  ghost predicate Canonical(p: seq<byte>)
    decreases |p|
  {
    p == [] ||
    (|p| >= 2 && 1 <= p[0] <= 255 && (|p| >= 4 && p[1] == p[3] ==> p[0] == 255) && Canonical(p[2..]))
  }

  lemma PairCanonical(n: byte, c: byte, rest: seq<byte>)
    requires n >= 1 && Canonical(rest) && (|rest| >= 2 && rest[1] == c ==> n == 255)
    ensures Canonical([n, c] + rest)
    ensures |[n, c] + rest| == |rest| + 2 && ([n, c] + rest)[1] == c
  {
    assert ([n, c] + rest)[2..] == rest;
  }

  lemma {:induction false} PackedIsCanonical(d: seq<byte>, i: nat)
    requires i <= |d|
    ensures Canonical(Packed(d, i)) && |Packed(d, i)| <= 2 * (|d| - i) && (i == |d| ==> Packed(d, i) == [])
    ensures i < |d| ==> |Packed(d, i)| >= 2 && Packed(d, i)[1] == d[i]
    decreases |d| - i
  {
    if i == |d| {
      assert Packed(d, i) == [];
    } else {
      RunEnd(d, i);
      hide RunAt, Repeat, Canonical;
      var n := 1 + RunAt(d, i + 1, d[i], 254);
      var rest := Packed(d, i + n);
      PackedIsCanonical(d, i + n);
      PairCanonical(n, d[i], rest);
    }
  }

  // The loop of bin_compress, into a buffer of 2 * |d| + 4 bytes.
  method Compress(d: seq<byte>) returns (p: seq<byte>)
    ensures p == Packed(d, 0)
  {
    hide Packed, RunAt;
    var out := new byte[2 * |d| + 4];
    var op: nat, i: nat := 0, 0;
    assert out[..0] + Packed(d, 0) == Packed(d, 0);
    while i < |d|
      invariant i <= |d| && op <= 2 * i && out[..op] + Packed(d, i) == Packed(d, 0)
    {
      ghost var done := out[..op];
      var c := d[i];
      var cnt := CountRun(d, i);
      out[op], out[op + 1] := cnt, c;
      op := op + 2;
      assert out[..op] == done + [cnt, c];
      PackedStep(d, i);
      Regroup(done, [cnt, c], Packed(d, i + cnt));
      i := i + cnt;
    }
    PackedEnd(d);
    p := out[..op];
  }

  lemma PackedStep(d: seq<byte>, i: nat)
    requires i < |d|
    ensures var n := 1 + RunAt(d, i + 1, d[i], 254); Packed(d, i) == [n, d[i]] + Packed(d, i + n) && i + n <= |d|
  {
    hide RunAt;
  }

  lemma PackedEnd(d: seq<byte>)
    ensures Packed(d, |d|) == []
  {
  }

  method CountRun(d: seq<byte>, i: nat) returns (cnt: byte)
    requires i < |d|
    ensures cnt == 1 + RunAt(d, i + 1, d[i], 254)
  {
    var c := d[i];
    cnt := 1;
    while i + cnt < |d| && d[i + cnt] == c && cnt < 255
      invariant 1 <= cnt <= 255 && i + cnt <= |d|
      invariant cnt + RunAt(d, i + cnt, c, 255 - cnt) == 1 + RunAt(d, i + 1, c, 254)
    {
      cnt := cnt + 1;
    }
  }

  lemma Regroup(a: seq<byte>, b: seq<byte>, c: seq<byte>)
    ensures (a + b) + c == a + (b + c)
  {
  }

  // The size pass and the expansion loop of bin_decompress.
  method Decompress(p: seq<byte>) returns (d: seq<byte>)
    ensures d == Unpacked(p)
  {
    var size := SizePass(p);
    var out := new byte[size + 1];
    var op: nat, i: nat := 0, 0;
    assert p[0..] == p;
    while i + 1 < |p|
      invariant 0 <= i <= |p| && op + |Unpacked(p[i..])| == size
      invariant out[..op] + Unpacked(p[i..]) == Unpacked(p)
    {
      ghost var done := out[..op];
      assert p[i..][2..] == p[i + 2..];
      for j := 0 to p[i]
        invariant op + |Unpacked(p[i..])| == size + j
        invariant out[..op] == done + Repeat(p[i + 1], j)
      {
        out[op] := p[i + 1];
        op := op + 1;
        assert out[..op] == done + (Repeat(p[i + 1], j) + [p[i + 1]]);
      }
      Regroup(done, Repeat(p[i + 1], p[i]), Unpacked(p[i + 2..]));
      i := i + 2;
    }
    d := out[..op];
  }

  method SizePass(p: seq<byte>) returns (size: nat)
    ensures size == |Unpacked(p)|
  {
    size := 0;
    var i := 0;
    assert p[0..] == p;
    while i + 1 < |p|
      invariant 0 <= i <= |p| && size + |Unpacked(p[i..])| == |Unpacked(p)|
    {
      assert p[i..][2..] == p[i + 2..];
      size := size + p[i];
      i := i + 2;
    }
  }
}
