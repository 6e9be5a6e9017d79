/**
 The inflater of shell/draw.c: a bit reader over global counters, the fixed-Huffman
 block decoder and the block loop.  The functions say what each routine computes over
 absolute bit positions; the class does it the way the source does.
 */
module Inflate {
  import opened BitStream
  import opened Deflate

  // The output buffer and the write position, which may run past the buffer's end.
  datatype Output = Output(buf: seq<byte>, pos: nat)

  // How a decoding step ended: whether it succeeded, the next bit and the output so far.
  datatype Outcome = Outcome(ok: bool, next: nat, out: Output)

  // ---- The tables of inflate_fixed_block ----

  function LenBase(): (t: seq<nat>)
    ensures |t| == 29 && t[0] == 3
  {
    [3, 4, 5, 6, 7, 8, 9, 10, 11, 13, 15, 17, 19, 23, 27, 31, 35, 43, 51, 59, 67, 83, 99, 115, 131, 163, 195, 227, 258]
  }

  function LenExtra(): (t: seq<nat>)
    ensures |t| == 29 && forall i :: 0 <= i < 29 ==> t[i] <= 5
  {
    [0, 0, 0, 0, 0, 0, 0, 0, 1, 1, 1, 1, 2, 2, 2, 2, 3, 3, 3, 3, 4, 4, 4, 4, 5, 5, 5, 5, 0]
  }

  function DistBase(): (t: seq<nat>)
    ensures |t| == 30 && t[0] == 1 && forall i :: 0 <= i < 30 ==> t[i] >= 1
  {
    [1, 2, 3, 4, 5, 7, 9, 13, 17, 25, 33, 49, 65, 97, 129, 193, 257, 385, 513, 769, 1025, 1537, 2049, 3073, 4097, 6145, 8193, 12289, 16385, 24577]
  }

  function DistExtra(): (t: seq<nat>)
    ensures |t| == 30 && forall i :: 0 <= i < 30 ==> t[i] <= 13
  {
    [0, 0, 0, 0, 1, 1, 2, 2, 3, 3, 4, 4, 5, 5, 6, 6, 7, 7, 8, 8, 9, 9, 10, 10, 11, 11, 12, 12, 13, 13]
  }

  // ---- What the routines compute ----

  function DecodeSymbol(s: seq<byte>, p: nat): (r: (nat, nat))
    ensures r.0 < 288 && r.1 == p + CodeLength(r.0)
    ensures Code(s, p, CodeLength(r.0)) == CodeWord(r.0)
    ensures p >= 8 * |s| ==> r.0 == END_OF_BLOCK
  {
    SevenBits(s, p);
    var c7 := Code(s, p, 7);
    if c7 <= 23 then (256 + c7, p + 7)
    else
      var c8 := Code(s, p, 8);
      if 0x30 <= c8 <= 0xBF then (c8 - 0x30, p + 8)
      else if 0xC0 <= c8 <= 0xC7 then (280 + c8 - 0xC0, p + 8)
      else (144 + Code(s, p, 9) - 0x190, p + 9)
  }

  lemma SevenBits(s: seq<byte>, p: nat)
    ensures Code(s, p, 7) < 128 && Code(s, p, 8) < 256 && Code(s, p, 9) < 512
    ensures Code(s, p, 8) == 2 * Code(s, p, 7) + Bit(s, p + 7)
    ensures Code(s, p, 9) == 2 * Code(s, p, 8) + Bit(s, p + 8)
    ensures p >= 8 * |s| ==> Code(s, p, 7) == 0
  {
    ExtraBitRanges();
    CodeBound(s, p, 7);
    assert Code(s, p, 9) == 2 * Code(s, p, 8) + Bit(s, p + 8);
    if p >= 8 * |s| { PastEnd(s, p, 7); }
  }

  function PutLiteral(o: Output, v: byte): Output {
    if o.pos < |o.buf| then Output(o.buf[o.pos := v], o.pos + 1) else o
  }

  function CopyMatch(o: Output, n: nat, distance: nat): (r: Output)
    requires distance >= 1
    ensures |r.buf| == |o.buf| && r.pos == o.pos + n
    decreases n
  {
    if n == 0 then o
    else
      var buf := if o.pos < |o.buf| && o.pos >= distance then o.buf[o.pos := o.buf[o.pos - distance]] else o.buf;
      CopyMatch(Output(buf, o.pos + 1), n - 1, distance)
  }

  // A length/distance pair as read, or the fact that one of its codes is not assigned.
  datatype Match = Match(ok: bool, next: nat, length: nat, distance: nat)

  // The distance half of a pair, from bit p on.
  function ReadDistance(s: seq<byte>, p: nat, length: nat): (r: Match)
    ensures r.next >= p && r.length == length && (r.ok ==> r.distance >= 1)
  {
    var di := Code(s, p, 5);
    if di >= 30 then Match(false, p + 5, length, 0)
    else Match(true, p + 5 + DistExtra()[di], length, DistBase()[di] + Field(s, p + 5, DistExtra()[di]))
  }

  // The rest of a length/distance pair after its length symbol, from bit p on.
  function ReadPair(s: seq<byte>, p: nat, sym: nat): (r: Match)
    requires sym >= 257
    ensures r.next >= p && (r.ok ==> r.distance >= 1)
  {
    var li := sym - 257;
    if li >= 29 then Match(false, p, 0, 0)
    else ReadDistance(s, p + LenExtra()[li], LenBase()[li] + Field(s, p, LenExtra()[li]))
  }

  // The effect of one symbol other than end-of-block.
  function OneSymbol(s: seq<byte>, p: nat, sym: nat, o: Output): (r: Outcome)
    requires sym != END_OF_BLOCK
    ensures r.next >= p && |r.out.buf| == |o.buf|
  {
    if sym < 256 then Outcome(true, p, PutLiteral(o, sym))
    else
      var m := ReadPair(s, p, sym);
      Outcome(m.ok, m.next, if m.ok then CopyMatch(o, m.length, m.distance) else o)
  }

  // The fixed-Huffman block from bit p on.
  function FixedBlock(s: seq<byte>, p: nat, o: Output): (r: Outcome)
    ensures r.next > p && |r.out.buf| == |o.buf|
    decreases if p < 8 * |s| then 8 * |s| - p else 0
  {
    var (sym, p1) := DecodeSymbol(s, p);
    if sym == END_OF_BLOCK then Outcome(true, p1, o)
    else
      var r := OneSymbol(s, p1, sym, o);
      if r.ok then FixedBlock(s, r.next, r.out) else r
  }

  // n stored bytes from byte z on; a byte that does not fit is neither written nor skipped.
  function StoredBytes(s: seq<byte>, z: nat, n: nat, o: Output): (r: (nat, Output))
    ensures r.0 >= z && |r.1.buf| == |o.buf|
    decreases n
  {
    if n == 0 then (z, o)
    else if o.pos < |o.buf| && z < |s| then StoredBytes(s, z + 1, n - 1, PutLiteral(o, s[z]))
    else StoredBytes(s, z, n - 1, o)
  }

  // The stored block whose header ended at bit p.
  function StoredBlock(s: seq<byte>, p: nat, o: Output): (r: Outcome)
    ensures r.next >= p && |r.out.buf| == |o.buf|
  {
    var z := (p + 7) / 8;
    if z + 4 > |s| then Outcome(false, 8 * z, o)
    else
      var (z', o') := StoredBytes(s, z + 4, s[z] as nat + 256 * s[z + 1] as nat, o);
      Outcome(true, 8 * z', o')
  }

  // One block, header included, from bit p on.
  function OneBlock(s: seq<byte>, p: nat, o: Output): (r: Outcome)
    ensures r.next > p && |r.out.buf| == |o.buf|
    ensures r.ok ==> p < 8 * |s|
  {
    var kind := Field(s, p + 1, 2);
    assert p >= 8 * |s| ==> kind == 0 by { if p >= 8 * |s| { PastEnd(s, p + 1, 2); } }
    if kind == 0 then StoredBlock(s, p + 3, o)
    else if kind == 1 then FixedBlock(s, p + 3, o)
    else Outcome(false, p + 3, o)
  }

  // The block sequence from bit p on, up to the block marked final.
  function Blocks(s: seq<byte>, p: nat, o: Output): (r: Outcome)
    ensures r.next > p && |r.out.buf| == |o.buf|
    decreases if p < 8 * |s| then 8 * |s| - p else 0
  {
    var r := OneBlock(s, p, o);
    if !r.ok || Bit(s, p) == 1 then r else Blocks(s, r.next, r.out)
  }

  // Past the end of the input, a header reads as a stored block, which then has no length word.
  lemma PastEndHeader(s: seq<byte>, p: nat, o: Output)
    requires p >= 8 * |s|
    ensures Field(s, p + 1, 2) == 0 && !StoredBlock(s, p + 3, o).ok
  {
    PastEnd(s, p + 1, 2);
  }

  // zlib_inflate: the two header bytes are skipped; -1 stands for every error.
  function Zlib(input: seq<byte>, buf: seq<byte>): (r: Outcome)
    ensures |r.out.buf| == |buf|
  {
    if |input| < 2 then Outcome(false, 0, Output(buf, 0)) else Blocks(input[2..], 0, Output(buf, 0))
  }

  // ---- The routines themselves ----

  class Inflater {
    var bitBuf: nat
    var bitCnt: nat
    var zin: seq<byte>
    var zinPos: nat
    var zout: array<byte>
    var zoutPos: nat
    ghost var fetched: nat   // bytes fetched so far, those past the end included

    // Between two reads fewer than 8 bits are buffered, and they are the next bits of the input.
    ghost predicate Valid()
      reads this`bitBuf, this`bitCnt, this`zin, this`zinPos, this`fetched
    {
      && bitCnt < 8
      && bitCnt <= 8 * fetched
      && bitBuf == Field(zin, 8 * fetched - bitCnt, bitCnt)
      && zinPos == if fetched < |zin| then fetched else |zin|
    }

    ghost function Position(): nat
      reads this`bitBuf, this`bitCnt, this`zin, this`zinPos, this`fetched
      requires Valid()
    {
      8 * fetched - bitCnt
    }

    ghost function Written(): Output
      reads this`zout, this`zoutPos, zout
    {
      Output(zout[..], zoutPos)
    }

    constructor (out: array<byte>)
      ensures Valid() && zout == out && zin == []
    {
      bitBuf, bitCnt, zin, zinPos, zout, zoutPos, fetched := 0, 0, [], 0, out, 0, 0;
    }

    method Reset(input: seq<byte>, out: array<byte>)
      modifies this
      ensures Valid() && Position() == 0 && zin == input && zout == out && zoutPos == 0
    {
      bitBuf, bitCnt, zin, zinPos, fetched := 0, 0, input, 0, 0;
      zout, zoutPos := out, 0;
    }

    // n <= 24 keeps the buffer within 32 bits; the source never asks for more than 13.
    method ReadBits(n: nat) returns (v: nat)
      requires Valid() && n <= 24
      modifies this`bitBuf, this`bitCnt, this`zinPos, this`fetched
      ensures Valid()
      ensures v == Field(zin, old(Position()), n)
      ensures Position() == old(Position()) + n
    {
      hide Field, Shr, Shl, Low, Bit;
      ghost var p := Position();
      while bitCnt < n
        invariant bitCnt < n + 8 || bitCnt < 8
        invariant bitCnt < 32
        invariant p == 8 * fetched - bitCnt
        invariant bitBuf == Field(zin, p, bitCnt)
        invariant zinPos == if fetched < |zin| then fetched else |zin|
        decreases n - bitCnt
      {
        FetchByte(zin, p, bitCnt, fetched);
        if zinPos < |zin| {
          bitBuf := bitBuf + Shl(zin[zinPos], bitCnt);
          zinPos := zinPos + 1;
        }
        bitCnt := bitCnt + 8;
        fetched := fetched + 1;
      }
      SplitBuffer(zin, p, n, bitCnt);
      v := Low(bitBuf, n);
      bitBuf, bitCnt := Shr(bitBuf, n), bitCnt - n;
    }

    method ReadBit() returns (v: bit)
      requires Valid()
      modifies this`bitBuf, this`bitCnt, this`zinPos, this`fetched
      ensures Valid()
      ensures v == Bit(zin, old(Position()))
      ensures Position() == old(Position()) + 1
    {
      hide Bit;
      var w := ReadBits(1);
      assert w == Bit(zin, old(Position())) + 2 * Field(zin, old(Position()) + 1, 0);
      v := w;
    }

    // n code bits, most significant first.
    method ReadCode(n: nat) returns (code: nat)
      requires Valid()
      modifies this`bitBuf, this`bitCnt, this`zinPos, this`fetched
      ensures Valid()
      ensures code == Code(zin, old(Position()), n)
      ensures Position() == old(Position()) + n
    {
      ghost var p := Position();
      code := 0;
      for i := 0 to n
        invariant Valid() && Position() == p + i && code == Code(zin, p, i)
      {
        var b := ReadBit();
        code := 2 * code + b as nat;
      }
    }

    method DecodeLitFixed() returns (sym: nat)
      requires Valid()
      modifies this`bitBuf, this`bitCnt, this`zinPos, this`fetched
      ensures Valid()
      ensures (sym, Position()) == DecodeSymbol(zin, old(Position()))
    {
      hide Code, Bit, Field;
      SevenBits(zin, Position());
      var code := ReadCode(7);
      if code <= 23 { return 256 + code; }
      var b := ReadBit();
      code := 2 * code + b as nat;
      if 0x30 <= code <= 0xBF { return code - 0x30; }
      if 0xC0 <= code <= 0xC7 { return 280 + code - 0xC0; }
      b := ReadBit();
      code := 2 * code + b as nat;
      return 144 + code - 0x190;
    }

    method InflateFixedBlock() returns (r: int)
      requires Valid()
      modifies this`bitBuf, this`bitCnt, this`zinPos, this`fetched, this`zoutPos, zout
      ensures Valid()
      ensures r == 0 || r == -1
      ensures Outcome(r == 0, Position(), Written()) == FixedBlock(zin, old(Position()), old(Written()))
    {
      ghost var result := FixedBlock(zin, Position(), Written());
      while true
        invariant Valid()
        invariant FixedBlock(zin, Position(), Written()) == result
        decreases if Position() < 8 * |zin| then 8 * |zin| - Position() else 0
      {
        var sym := DecodeLitFixed();
        if sym == END_OF_BLOCK { return 0; }
        var e := EmitSymbol(sym);
        if e < 0 { return -1; }
      }
    }

    // A literal byte or a match, the two branches of the block decoder's loop.
    method EmitSymbol(sym: nat) returns (r: int)
      requires Valid() && sym != END_OF_BLOCK
      modifies this`bitBuf, this`bitCnt, this`zinPos, this`fetched, this`zoutPos, zout
      ensures Valid()
      ensures r == 0 || r == -1
      ensures Outcome(r == 0, Position(), Written()) == OneSymbol(zin, old(Position()), sym, old(Written()))
    {
      if sym < 256 {
        if zoutPos < zout.Length {
          zout[zoutPos] := sym;
          zoutPos := zoutPos + 1;
        }
        return 0;
      }
      var ok, length, distance := ReadMatch(sym);
      if !ok { return -1; }
      CopyBytes(length, distance);
      return 0;
    }

    method ReadMatch(sym: nat) returns (ok: bool, length: nat, distance: nat)
      requires Valid() && sym >= 257
      modifies this`bitBuf, this`bitCnt, this`zinPos, this`fetched
      ensures Valid()
      ensures Match(ok, Position(), length, distance) == ReadPair(zin, old(Position()), sym)
    {
      hide LenBase, LenExtra, DistBase, DistExtra, Field, Code;
      var li := sym - 257;
      if li < 0 || li >= 29 { return false, 0, 0; }
      length := ReadExtra(LenBase(), LenExtra(), li);
      ok, distance := ReadDistancePart(length);
    }

    method ReadDistancePart(ghost length: nat) returns (ok: bool, distance: nat)
      requires Valid()
      modifies this`bitBuf, this`bitCnt, this`zinPos, this`fetched
      ensures Valid()
      ensures Match(ok, Position(), length, distance) == ReadDistance(zin, old(Position()), length)
    {
      hide LenBase, LenExtra, DistBase, DistExtra, Field, Code;
      var di := ReadDistanceCode();
      if di >= 30 { return false, 0; }
      distance := ReadExtra(DistBase(), DistExtra(), di);
      ok := true;
    }

    // A table's base value plus as many extra bits as the table asks for.
    method ReadExtra(base: seq<nat>, extra: seq<nat>, i: nat) returns (v: nat)
      requires Valid() && i < |base| == |extra| && extra[i] <= 24
      modifies this`bitBuf, this`bitCnt, this`zinPos, this`fetched
      ensures Valid()
      ensures v == base[i] + Field(zin, old(Position()), extra[i])
      ensures Position() == old(Position()) + extra[i]
    {
      v := ReadBits(extra[i]);
      v := base[i] + v;
    }

    // The five distance bits, read least significant first and then reversed.
    method ReadDistanceCode() returns (di: nat)
      requires Valid()
      modifies this`bitBuf, this`bitCnt, this`zinPos, this`fetched
      ensures Valid()
      ensures di == Code(zin, old(Position()), 5)
      ensures Position() == old(Position()) + 5
    {
      hide Shr, Bit, Field;
      ghost var p := Position();
      var dc := ReadBits(5);
      di := 0;
      for i := 0 to 5
        invariant di == Code(zin, p, i)
        modifies {}
      {
        FieldBit(zin, p, 5, i);
        di := 2 * di + Shr(dc, i) % 2;
      }
    }

    method CopyBytes(length: nat, distance: nat)
      requires distance >= 1
      modifies this`zoutPos, zout
      ensures Written() == CopyMatch(old(Written()), length, distance)
    {
      ghost var result := CopyMatch(Written(), length, distance);
      for i := 0 to length
        invariant CopyMatch(Written(), length - i, distance) == result
      {
        if zoutPos < zout.Length && zoutPos >= distance {
          zout[zoutPos] := zout[zoutPos - distance];
        }
        zoutPos := zoutPos + 1;
      }
    }

    method InflateStoredBlock() returns (r: int)
      requires Valid()
      modifies this`bitBuf, this`bitCnt, this`zinPos, this`fetched, this`zoutPos, zout
      ensures Valid()
      ensures r == 0 || r == -1
      ensures Outcome(r == 0, Position(), Written()) == StoredBlock(zin, old(Position()), old(Written()))
    {
      hide Bit;
      ghost var z := (Position() + 7) / 8;
      bitCnt, bitBuf := 0, 0;
      assert z == fetched;
      if zinPos + 4 > |zin| { return -1; }
      var len := zin[zinPos] as nat + 256 * zin[zinPos + 1] as nat;
      zinPos := zinPos + 2;
      zinPos := zinPos + 2;
      ghost var result := StoredBytes(zin, zinPos, len, Written());
      for i := 0 to len
        invariant zinPos <= |zin| && bitCnt == bitBuf == 0
        invariant StoredBytes(zin, zinPos, len - i, Written()) == result
      {
        if zoutPos < zout.Length && zinPos < |zin| {
          zout[zoutPos] := zin[zinPos];
          zoutPos, zinPos := zoutPos + 1, zinPos + 1;
        }
      }
      fetched := zinPos;
      return 0;
    }

    // The body of the block loop.
    method InflateBlock() returns (r: int, final: bit)
      requires Valid()
      modifies this`bitBuf, this`bitCnt, this`zinPos, this`fetched, this`zoutPos, zout
      ensures Valid()
      ensures r == 0 || r == -1
      ensures final == Bit(zin, old(Position()))
      ensures Outcome(r == 0, Position(), Written()) == OneBlock(zin, old(Position()), old(Written()))
    {
      hide FixedBlock, StoredBlock;
      ghost var p, o := Position(), Written();
      final := ReadBit();
      var kind := ReadBits(2);
      assert Position() == p + 3 && Written() == o && kind == Field(zin, p + 1, 2);
      if kind == 0 {
        r := InflateStoredBlock();
      } else if kind == 1 {
        r := InflateFixedBlock();
      } else {
        r := -1;
      }
    }

    // Terminates on every input and writes only inside `out`, whose length is the caller's bound.
    method ZlibInflate(input: seq<byte>, out: array<byte>) returns (r: int)
      modifies this, out
      ensures var o := Zlib(input, old(out[..]));
        r == (if o.ok then o.out.pos else -1) && out[..] == o.out.buf
    {
      if |input| < 2 { return -1; }
      Reset(input[2..], out);
      ghost var result := Blocks(zin, 0, Written());
      while true
        invariant Valid() && zin == input[2..] && zout == out
        invariant Blocks(zin, Position(), Written()) == result
        decreases if Position() < 8 * |zin| then 8 * |zin| - Position() else 0
      {
        var e, final := InflateBlock();
        if e < 0 { return -1; }
        if final == 1 { break; }
      }
      return zoutPos;
    }
  }
}
