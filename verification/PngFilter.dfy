/**
 Undoing the PNG filters in place (the scanline loop of png_decode in shell/draw.c), against
 the filters of section 6 of RFC 2083.
 */
module PngFilter {
  type byte = x: int | 0 <= x < 256

  function Abs(x: int): nat {
    if x < 0 then -x else x
  }

  // paeth
  function Paeth(a: byte, b: byte, c: byte): byte {
    var p := a + b - c;
    var pa, pb, pc := Abs(p - a), Abs(p - b), Abs(p - c);
    if pa <= pb && pa <= pc then a else if pb <= pc then b else c
  }

  // It is the neighbour nearest to a + b - c, the left one before the one above before the corner.
  lemma PaethIsNearest(a: byte, b: byte, c: byte)
    ensures var p, r := a + b - c, Paeth(a, b, c);
      && (r == a || r == b || r == c)
      && Abs(p - r) <= Abs(p - a) && Abs(p - r) <= Abs(p - b) && Abs(p - r) <= Abs(p - c)
      && (Abs(p - a) == Abs(p - r) ==> r == a)
      && (Abs(p - a) > Abs(p - r) == Abs(p - b) ==> r == b)
  {
  }

  // The prediction of each filter type from the bytes to the left, above, and above left.  Types
  // the standard does not define predict nothing.
  function Predict(ftype: byte, a: byte, b: byte, c: byte): byte {
    if ftype == 1 then a
    else if ftype == 2 then b
    else if ftype == 3 then (a + b) / 2
    else if ftype == 4 then Paeth(a, b, c)
    else 0
  }

  // The byte `bpp` places before the x-th, zero outside the line.
  function Left(line: seq<byte>, x: nat, bpp: nat): byte
    requires x < |line| + bpp && bpp > 0
  {
    if x >= bpp then line[x - bpp] else 0
  }

  function Zeros(n: nat): (z: seq<byte>)
    ensures |z| == n && forall i :: 0 <= i < n ==> z[i] == 0
  {
    seq(n, _ => 0)
  }

  // Filtering subtracts the prediction made from the original bytes.
  function FilterRow(prev: seq<byte>, row: seq<byte>, ftype: byte, bpp: nat): (f: seq<byte>)
    requires |prev| == |row| && bpp > 0
    ensures |f| == |row|
  {
    seq(|row|, x requires 0 <= x < |row| =>
      (row[x] - Predict(ftype, Left(row, x, bpp), prev[x], Left(prev, x, bpp))) % 256)
  }

  // Ties go to the byte on the left, then to the one above.
  ghost predicate Nearest(t: int, a: byte, b: byte, c: byte, p: byte) {
    var d := Abs(t - p);
    && d <= Abs(t - a) && d <= Abs(t - b) && d <= Abs(t - c)
    && p == if d == Abs(t - a) then a else if d == Abs(t - b) then b else c
  }

  // What section 6 adds to the filtered byte to restore the original: nothing, the byte to the left,
  // the one above, their mean rounded down, or the one of the three nearest to a + b - c.
  ghost predicate Addend(ftype: byte, a: byte, b: byte, c: byte, p: byte) {
    match ftype
    case 1 => p == a
    case 2 => p == b
    case 3 => 2 * p <= a + b <= 2 * p + 1
    case 4 => Nearest(a + b - c, a, b, c, p)
    case _ => p == 0
  }

  // Each original byte is the sum, modulo 256, of its filtered byte and what its neighbours give.
  lemma FilterSums(prev: seq<byte>, row: seq<byte>, ftype: byte, bpp: nat, x: nat)
    requires |prev| == |row| && bpp > 0 && x < |row|
    ensures var a, c := if x >= bpp then row[x - bpp] else 0, if x >= bpp then prev[x - bpp] else 0;
      exists p: byte :: Addend(ftype, a, prev[x], c, p) && row[x] == (FilterRow(prev, row, ftype, bpp)[x] + p) % 256
  {
    var a, b, c := Left(row, x, bpp), prev[x], Left(prev, x, bpp);
    var p := Predict(ftype, a, b, c);
    AddBack(row[x], p);
    assert Addend(ftype, a, b, c, p);
  }

  ghost predicate Sized(rows: seq<seq<byte>>, n: nat) {
    forall y :: 0 <= y < |rows| ==> |rows[y]| == n
  }

  // The lines of an image, each behind its filter type.
  function Plain(rows: seq<seq<byte>>, types: seq<byte>): seq<byte>
    requires |rows| == |types|
  {
    if rows == [] then [] else [types[0]] + rows[0] + Plain(rows[1..], types[1..])
  }

  // The same lines filtered, each from itself and the line above it.
  function Encoded(prev: seq<byte>, rows: seq<seq<byte>>, types: seq<byte>, bpp: nat): seq<byte>
    requires |rows| == |types| && bpp > 0 && Sized(rows, |prev|)
    decreases |rows|
  {
    if rows == [] then []
    else [types[0]] + FilterRow(prev, rows[0], types[0], bpp) + Encoded(rows[0], rows[1..], types[1..], bpp)
  }

  method UnfilterRow(raw: array<byte>, row: nat, n: nat, bpp: nat, first: bool, ghost prev: seq<byte>, ghost line: seq<byte>)
    requires bpp > 0 && row + 1 + n <= raw.Length && |prev| == |line| == n
    requires if first then prev == Zeros(n) else row >= n && raw[row - n..row] == prev
    requires raw[row + 1..row + 1 + n] == FilterRow(prev, line, raw[row], bpp)
    modifies raw
    ensures raw[..] == old(raw[..row + 1]) + line + old(raw[row + 1 + n..])
  {
    var ftype := raw[row];
    ghost var was := raw[..];
    var s := row + 1;
    var x := 0;
    assert !first ==> forall i :: row - n <= i < row ==> raw[row - n..row][i - (row - n)] == raw[i];
    assert forall i :: s <= i < s + n ==> raw[s..s + n][i - s] == raw[i];
    hide FilterRow, Predict;
    while x < n
      invariant 0 <= x <= n && LineState(raw[..], was, row, line, x)
    {
      var a, b, c := Neighbours(raw, row, n, bpp, first, x, prev, line);
      FilteredAt(prev, line, ftype, bpp, x);
      Restore(raw, s + x, ftype, a, b, c, line[x]);
      x := x + 1;
    }
  }

  // The first x bytes of the line are restored and nothing else has changed.
  ghost predicate LineState(raw: seq<byte>, was: seq<byte>, row: nat, line: seq<byte>, x: nat) {
    && |raw| == |was| && x <= |line| && row + 1 + |line| <= |raw|
    && forall i :: 0 <= i < |raw| ==> raw[i] == if row + 1 <= i < row + 1 + x then line[i - row - 1] else was[i]
  }

  // The bytes a prediction is made from, some of them restored a moment ago.
  method Neighbours(raw: array<byte>, row: nat, n: nat, bpp: nat, first: bool, x: nat, ghost prev: seq<byte>, ghost line: seq<byte>)
    returns (a: byte, b: byte, c: byte)
    requires bpp > 0 && x < n && row + 1 + n <= raw.Length && |prev| == |line| == n
    requires if first then prev == Zeros(n) else row >= n && forall i :: row - n <= i < row ==> raw[i] == prev[i - (row - n)]
    requires forall i :: row + 1 <= i < row + 1 + x ==> raw[i] == line[i - row - 1]
    ensures a == Left(line, x, bpp) && b == prev[x] && c == Left(prev, x, bpp)
  {
    a := if x >= bpp then raw[row + 1 + x - bpp] else 0;
    b := if first then 0 else raw[row - n + x];
    c := if !first && x >= bpp then raw[row - n + x - bpp] else 0;
  }

  lemma FilteredAt(prev: seq<byte>, line: seq<byte>, ftype: byte, bpp: nat, x: nat)
    requires |prev| == |line| && bpp > 0 && x < |line|
    ensures FilterRow(prev, line, ftype, bpp)[x] == (line[x] - Predict(ftype, Left(line, x, bpp), prev[x], Left(prev, x, bpp))) % 256
  {
  }

  // One byte, by the filter type of its line.
  method Restore(raw: array<byte>, i: nat, ftype: byte, a: byte, b: byte, c: byte, ghost was: byte)
    requires i < raw.Length && raw[i] == (was - Predict(ftype, a, b, c)) % 256
    modifies raw
    ensures raw[..] == old(raw[..])[i := was]
  {
    AddBack(was, Predict(ftype, a, b, c));
    hide Paeth;
    match ftype
    case 0 =>
    case 1 => raw[i] := (raw[i] + a) % 256;
    case 2 => raw[i] := (raw[i] + b) % 256;
    case 3 => raw[i] := (raw[i] + (a + b) / 2) % 256;
    case 4 => raw[i] := (raw[i] + Paeth(a, b, c)) % 256;
    case _ =>
  }

  lemma AddBack(was: byte, p: byte)
    ensures ((was - p) % 256 + p) % 256 == was
  {
  }

  // Every line of bytes is the filtered form of some line, under any filter type.
  lemma {:induction false} Unfiltered(prev: seq<byte>, f: seq<byte>, ftype: byte, bpp: nat, n: nat) returns (row: seq<byte>)
    requires |prev| == |f| && bpp > 0 && n <= |f|
    ensures |row| == n && forall x :: 0 <= x < n ==>
      f[x] == (row[x] - Predict(ftype, Left(row, x, bpp), prev[x], Left(prev, x, bpp))) % 256
  {
    hide Predict;
    if n == 0 {
      row := [];
    } else {
      var less := Unfiltered(prev, f, ftype, bpp, n - 1);
      var x := n - 1;
      var p := Predict(ftype, if x >= bpp then less[x - bpp] else 0, prev[x], Left(prev, x, bpp));
      var sum: int := f[x] as int + p as int;
      row := less + [sum % 256];
      TakeAway(f[x], p);
    }
  }

  lemma TakeAway(f: byte, p: byte)
    ensures ((f + p) % 256 - p) % 256 == f
  {
  }

  // So every array of the right length is some filtered image, and the scanline loop restores it.
  lemma {:induction false} EveryImage(raw: seq<byte>, prev: seq<byte>, h: nat, bpp: nat)
    returns (rows: seq<seq<byte>>, types: seq<byte>)
    requires bpp > 0 && |raw| == h * (|prev| + 1)
    ensures |rows| == |types| == h && Sized(rows, |prev|) && Encoded(prev, rows, types, bpp) == raw
    decreases h
  {
    if h == 0 {
      rows, types := [], [];
    } else {
      var n := |prev|;
      LinesLeft(h, n);
      var line, rest := raw[1..n + 1], raw[n + 1..];
      var row := Unfiltered(prev, line, raw[0], bpp, n);
      hide Predict;
      assert FilterRow(prev, row, raw[0], bpp) == line;
      hide FilterRow;
      var rs, ts := EveryImage(rest, row, h - 1, bpp);
      rows, types := [row] + rs, [raw[0]] + ts;
      assert rows[1..] == rs && types[1..] == ts;
      assert raw == [raw[0]] + line + rest;
    }
  }

  lemma LinesLeft(h: nat, n: nat)
    requires h > 0
    ensures h * (n + 1) - (n + 1) == (h - 1) * (n + 1) >= 0
  {
  }

  // The scanline loop: whatever filters were chosen, the image comes back.
  method Unfilter(raw: array<byte>, n: nat, h: nat, bpp: nat, ghost rows: seq<seq<byte>>, ghost types: seq<byte>)
    requires bpp > 0 && |rows| == |types| == h && Sized(rows, n)
    requires raw[..] == Encoded(Zeros(n), rows, types, bpp)
    modifies raw
    ensures raw[..] == Plain(rows, types)
  {
    var y: nat, row: nat := 0, 0;
    ghost var prev := Zeros(n);
    assert rows[0..] == rows && types[0..] == types;
    assert Midway(raw[..], 0, Zeros(n), rows, types, 0, n, bpp);
    hide Midway;
    while y < h
      invariant 0 <= y <= h && Midway(raw[..], row, prev, rows, types, y, n, bpp)
    {
      MidwayLine(raw[..], row, prev, rows, types, y, n, bpp);
      ghost var before := raw[..];
      UnfilterRow(raw, row, n, bpp, y == 0, prev, rows[y]);
      MidwayStep(before, raw[..], row, prev, rows, types, y, n, bpp);
      prev := rows[y];
      y, row := y + 1, row + n + 1;
    }
    MidwayEnd(raw[..], row, prev, rows, types, n, bpp);
  }

  // y lines are restored, ending at `row`; the others are still filtered.
  ghost predicate Midway(raw: seq<byte>, row: nat, prev: seq<byte>, rows: seq<seq<byte>>, types: seq<byte>, y: nat, n: nat, bpp: nat) {
    && bpp > 0 && |rows| == |types| && Sized(rows, n) && y <= |rows| && |prev| == n && row <= |raw|
    && raw[row..] == Encoded(prev, rows[y..], types[y..], bpp)
    && raw[..row] + Plain(rows[y..], types[y..]) == Plain(rows, types)
    && if y == 0 then prev == Zeros(n) else row >= n && raw[row - n..row] == prev
  }

  // The first filtered line, where it stands.
  lemma MidwayLine(raw: seq<byte>, row: nat, prev: seq<byte>, rows: seq<seq<byte>>, types: seq<byte>, y: nat, n: nat, bpp: nat)
    requires Midway(raw, row, prev, rows, types, y, n, bpp) && y < |rows|
    ensures bpp > 0 && row + 1 + n <= |raw| && |prev| == |rows[y]| == n && raw[row] == types[y]
    ensures raw[row + 1..row + 1 + n] == FilterRow(prev, rows[y], types[y], bpp)
    ensures raw[row + 1 + n..] == Encoded(rows[y], rows[y + 1..], types[y + 1..], bpp)
    ensures if y == 0 then prev == Zeros(n) else row >= n && raw[row - n..row] == prev
  {
    assert rows[y..][1..] == rows[y + 1..] && types[y..][1..] == types[y + 1..];
    hide FilterRow, Plain;
    var line := FilterRow(prev, rows[y], types[y], bpp);
    SplitLine(raw[row..], types[y], line, Encoded(rows[y], rows[y + 1..], types[y + 1..], bpp));
    hide Encoded;
    assert raw[row + 1..row + 1 + n] == raw[row..][1..1 + n];
    assert raw[row + 1 + n..] == raw[row..][1 + n..];
  }

  lemma SplitLine(s: seq<byte>, t: byte, line: seq<byte>, rest: seq<byte>)
    requires s == [t] + line + rest
    ensures |s| >= 1 + |line| && s[0] == t && s[1..1 + |line|] == line && s[1 + |line|..] == rest
  {
  }

  lemma MidwayStep(before: seq<byte>, after: seq<byte>, row: nat, prev: seq<byte>, rows: seq<seq<byte>>, types: seq<byte>,
                   y: nat, n: nat, bpp: nat)
    requires Midway(before, row, prev, rows, types, y, n, bpp) && y < |rows| && row + 1 + n <= |before|
    requires after == before[..row + 1] + rows[y] + before[row + 1 + n..]
    ensures Midway(after, row + n + 1, rows[y], rows, types, y + 1, n, bpp)
  {
    MidwayLine(before, row, prev, rows, types, y, n, bpp);
    var line, tail := rows[y], before[row + 1 + n..];
    assert rows[y..][1..] == rows[y + 1..] && types[y..][1..] == types[y + 1..];
    hide FilterRow, Encoded;
    assert before[..row + 1] == before[..row] + [types[y]];
    SpliceLine(before[..row], types[y], line, tail, after, Plain(rows[y + 1..], types[y + 1..]));
  }

  lemma SpliceLine(done: seq<byte>, t: byte, line: seq<byte>, tail: seq<byte>, after: seq<byte>, plain: seq<byte>)
    requires after == done + [t] + line + tail
    ensures var row := |done| + 1 + |line|;
      && after[row..] == tail && after[row - |line|..row] == line
      && after[..row] + plain == done + ([t] + line + plain)
  {
    assert after[..|done| + 1 + |line|] == done + [t] + line;
  }

  lemma MidwayEnd(raw: seq<byte>, row: nat, prev: seq<byte>, rows: seq<seq<byte>>, types: seq<byte>, n: nat, bpp: nat)
    requires Midway(raw, row, prev, rows, types, |rows|, n, bpp)
    ensures raw == Plain(rows, types)
  {
    assert rows[|rows|..] == [] && raw[..row] == raw;
  }
}
