/**
 The DEFLATE format itself (sections 3.2.3 to 3.2.6 of RFC 1951), written from the
 encoder's side: tokens, blocks, their bits, and the bytes they stand for.
 */
module Deflate {
  import opened BitStream

  // A copy is written with a length code and a distance code, each with the value of its extra bits.
  datatype Token = Literal(value: byte) | Copy(lcode: nat, lextra: nat, dcode: nat, dextra: nat)

  // A stored block starts at a byte; the encoder fills up the byte before with any of seven bits.
  datatype Block = Stored(pad: seq<bit>, data: seq<byte>) | Fixed(tokens: seq<Token>)

  const END_OF_BLOCK := 256

  // ---- The fixed literal/length code (section 3.2.6) ----

  function CodeLength(sym: nat): nat
    requires sym < 288
  {
    if sym < 144 then 8 else if sym < 256 then 9 else if sym < 280 then 7 else 8
  }

  function CodeWord(sym: nat): nat
    requires sym < 288
  {
    if sym < 144 then 0x30 + sym
    else if sym < 256 then 0x190 + (sym - 144)
    else if sym < 280 then sym - 256
    else 0xC0 + (sym - 280)
  }

  function SymbolBits(sym: nat): (r: seq<bit>)
    requires sym < 288
    ensures |r| == CodeLength(sym)
  {
    CodeBits(CodeWord(sym), CodeLength(sym))
  }

  // It is the code that section 3.2.2 makes from the code lengths: shorter codes come before longer
  // ones that start differently, codes of one length are in the order of their symbols, and from the
  // seven zeros of end-of-block to the nine ones of symbol 255 nothing is left over.
  lemma FixedCodeIsCanonical(a: nat, b: nat)
    requires a < b < 288
    ensures CodeLength(a) == CodeLength(b) ==> CodeWord(a) < CodeWord(b)
    ensures CodeLength(a) < CodeLength(b) ==> (CodeWord(a) + 1) * Pow2(CodeLength(b) - CodeLength(a)) <= CodeWord(b)
    ensures CodeLength(a) > CodeLength(b) ==> (CodeWord(b) + 1) * Pow2(CodeLength(a) - CodeLength(b)) <= CodeWord(a)
    ensures 24 * Pow2(2) + 152 * Pow2(1) + 112 == Pow2(9)
    ensures CodeWord(256) == 0 && CodeLength(256) == 7 && CodeWord(255) == 511 && CodeLength(255) == 9
  {
    ExtraBitRanges();
  }

  // ---- Length and distance codes (section 3.2.5) ----

  // Length symbol 257 + c: after the first eight, every four symbols share a number of extra bits
  // that grows by one; the last symbol stands for 258 alone.
  function LengthBits(c: nat): nat {
    if c < 8 || c == 28 then 0 else (c - 4) / 4
  }

  function LengthFrom(c: nat): nat {
    if c < 8 then 3 + c else if c == 28 then 258 else 3 + (4 + c % 4) * Pow2(LengthBits(c))
  }

  // Distance code c: after the first four, every two share a number of extra bits.
  function DistanceBits(c: nat): nat {
    if c < 4 then 0 else (c - 2) / 2
  }

  function DistanceFrom(c: nat): nat {
    if c < 4 then 1 + c else 1 + (2 + c % 2) * Pow2(DistanceBits(c))
  }

  // The codes are assigned and the extra bits have room for their values.
  ghost predicate Coded(t: Token) {
    t.Copy? ==>
      && t.lcode < 29 && t.lextra < Pow2(LengthBits(t.lcode))
      && t.dcode < 30 && t.dextra < Pow2(DistanceBits(t.dcode))
  }

  function Length(t: Token): nat
    requires t.Copy?
  {
    LengthFrom(t.lcode) + t.lextra
  }

  function Distance(t: Token): (d: nat)
    requires t.Copy?
    ensures d >= 1
  {
    DistanceFrom(t.dcode) + t.dextra
  }

  ghost predicate ValidToken(t: Token, produced: nat) {
    Coded(t) && (t.Copy? ==> Distance(t) <= produced)
  }

  function TokenBits(t: Token): seq<bit>
    requires t.Copy? ==> t.lcode < 29
  {
    match t
    case Literal(v) => SymbolBits(v)
    case Copy(lcode, lextra, dcode, dextra) =>
      SymbolBits(257 + lcode) + (FieldBits(lextra, LengthBits(lcode)) +
      (CodeBits(dcode, 5) + FieldBits(dextra, DistanceBits(dcode))))
  }

  lemma ExtraBitRanges()
    ensures Pow2(0) == 1 && Pow2(1) == 2 && Pow2(2) == 4 && Pow2(3) == 8 && Pow2(4) == 16
    ensures Pow2(5) == 32 && Pow2(6) == 64 && Pow2(7) == 128 && Pow2(8) == 256 && Pow2(9) == 512
    ensures Pow2(10) == 1024 && Pow2(11) == 2048 && Pow2(12) == 4096 && Pow2(13) == 8192
  {
    assert Pow2(4) == 16;
    assert Pow2(8) == 256;
    assert Pow2(12) == 4096;
  }

  // One code's values end where the next one's begin.
  lemma LengthGap(c: nat)
    requires c < 27
    ensures LengthFrom(c + 1) == LengthFrom(c) + Pow2(LengthBits(c))
  {
    hide Pow2;
    ExtraBitRanges();
  }

  lemma DistanceGap(c: nat)
    requires c < 29
    ensures DistanceFrom(c + 1) == DistanceFrom(c) + Pow2(DistanceBits(c))
  {
    hide Pow2;
    ExtraBitRanges();
    if c >= 3 {
      var k: nat := (c - 2) / 2;
      if c % 2 == 0 {
        assert DistanceBits(c) == DistanceBits(c + 1) == k;
      } else {
        assert DistanceBits(c + 1) == DistanceBits(c) + 1;
        Pow2Next(DistanceBits(c));
      }
    }
  }

  lemma Pow2Next(k: nat)
    ensures Pow2(k + 1) == 2 * Pow2(k)
  {
  }

  lemma CodeEnds()
    ensures LengthFrom(0) == 3 && LengthFrom(27) == 227 && LengthBits(27) == 5 && LengthFrom(28) == 258 && LengthBits(28) == 0
    ensures DistanceFrom(0) == 1 && DistanceFrom(29) == 24577 && DistanceBits(29) == 13
  {
    hide Pow2;
    ExtraBitRanges();
  }

  // Every length from 3 to 258 has a code, and no code stands for another length.
  lemma LengthFits(length: nat) returns (c: nat, x: nat)
    requires 3 <= length <= 258
    ensures c < 29 && x < Pow2(LengthBits(c)) && LengthFrom(c) + x == length
  {
    hide LengthFrom, LengthBits;
    CodeEnds();
    ExtraBitRanges();
    if length == 258 { return 28, 0; }
    c := 27;
    while length < LengthFrom(c)
      invariant c <= 27 && (length < LengthFrom(c) + Pow2(LengthBits(c)))
    {
      LengthGap(c - 1);
      c := c - 1;
    }
    x := length - LengthFrom(c);
  }

  lemma DistanceFits(distance: nat) returns (c: nat, x: nat)
    requires 1 <= distance <= 32768
    ensures c < 30 && x < Pow2(DistanceBits(c)) && DistanceFrom(c) + x == distance
  {
    hide DistanceFrom, DistanceBits;
    CodeEnds();
    ExtraBitRanges();
    c := 29;
    while distance < DistanceFrom(c)
      invariant c <= 29 && distance < DistanceFrom(c) + Pow2(DistanceBits(c))
    {
      DistanceGap(c - 1);
      c := c - 1;
    }
    x := distance - DistanceFrom(c);
  }

  lemma {:induction false} LengthsGrow(c: nat)
    requires c <= 27
    ensures 3 <= LengthFrom(c) && LengthFrom(c) + Pow2(LengthBits(c)) <= 259
    decreases 27 - c
  {
    hide LengthFrom, LengthBits;
    CodeEnds();
    ExtraBitRanges();
    if c < 27 {
      LengthGap(c);
      LengthsGrow(c + 1);
    }
    LeastLength(c);
  }

  lemma LeastLength(c: nat)
    ensures 3 <= LengthFrom(c)
  {
  }

  lemma {:induction false} DistancesGrow(c: nat)
    requires c <= 29
    ensures DistanceFrom(c) + Pow2(DistanceBits(c)) <= 32769
    decreases 29 - c
  {
    hide DistanceFrom, DistanceBits;
    CodeEnds();
    ExtraBitRanges();
    if c < 29 {
      DistanceGap(c);
      DistancesGrow(c + 1);
    }
  }

  // A coded copy is 3 to 258 bytes from 1 to 32768 back.
  lemma CopyRange(t: Token)
    requires t.Copy? && Coded(t)
    ensures 3 <= Length(t) <= 258 && 1 <= Distance(t) <= 32768
  {
    CodeEnds();
    ExtraBitRanges();
    if t.lcode < 28 { LengthsGrow(t.lcode); }
    DistancesGrow(t.dcode);
    hide LengthFrom, LengthBits, DistanceFrom, DistanceBits;
  }

  // ---- Blocks (sections 3.2.3 and 3.2.4) ----

  function TokensBits(ts: seq<Token>): seq<bit>
    requires forall t :: t in ts && t.Copy? ==> t.lcode < 29
  {
    if ts == [] then SymbolBits(END_OF_BLOCK) else TokenBits(ts[0]) + TokensBits(ts[1..])
  }

  function BytesBits(data: seq<byte>): (r: seq<bit>)
    ensures |r| == 8 * |data|
  {
    if data == [] then [] else FieldBits(data[0], 8) + BytesBits(data[1..])
  }

  // A stored block's length word and its one's complement, both little-endian.
  function StoredHeader(n: nat): (r: seq<byte>)
    requires n < 0x10000
    ensures |r| == 4
  {
    [n % 256, n / 256, (0xFFFF - n) % 256, (0xFFFF - n) / 256]
  }

  // How many bits are missing to the next byte.
  function PadLength(p: nat): (n: nat)
    ensures n < 8 && (p + n) % 8 == 0 && (p + n) / 8 == (p + 7) / 8
  {
    if p % 8 == 0 then 0 else 8 - p % 8
  }

  ghost predicate EncodableBlock(b: Block) {
    match b
    case Stored(pad, data) => |pad| == 7 && |data| < 0x10000
    case Fixed(ts) => forall t :: t in ts ==> Coded(t)
  }

  // A block's bits after its three header bits, from bit position p on.
  ghost function BodyBits(b: Block, p: nat): seq<bit>
    requires EncodableBlock(b)
  {
    match b
    case Stored(pad, data) => pad[..PadLength(p)] + BytesBits(StoredHeader(|data|) + data)
    case Fixed(ts) => TokensBits(ts)
  }

  // The bits of a block that starts at bit position p.
  ghost function BlockBits(b: Block, final: bit, p: nat): seq<bit>
    requires EncodableBlock(b)
  {
    [final, if b.Stored? then 0 else 1, 0] + BodyBits(b, p + 3)
  }

  ghost function BlocksBits(bs: seq<Block>, p: nat): seq<bit>
    requires |bs| > 0 && forall b :: b in bs ==> EncodableBlock(b)
  {
    if |bs| == 1 then BlockBits(bs[0], 1, p)
    else
      var first := BlockBits(bs[0], 0, p);
      first + BlocksBits(bs[1..], p + |first|)
  }

  // ---- What the tokens stand for ----

  // Copying n bytes from `distance` back, one at a time, so that a copy may overlap itself.
  function CopyBack(done: seq<byte>, n: nat, distance: nat): (r: seq<byte>)
    requires 1 <= distance <= |done|
    ensures |r| == |done| + n && r[..|done|] == done
    decreases n
  {
    if n == 0 then done else CopyBack(done + [done[|done| - distance]], n - 1, distance)
  }

  // Every copied byte equals the one `distance` before it in the result.
  lemma {:induction false} CopyIsPeriodic(done: seq<byte>, n: nat, distance: nat, i: nat)
    requires 1 <= distance <= |done| && i < n
    ensures var r := CopyBack(done, n, distance); r[|done| + i] == r[|done| + i - distance]
    decreases n
  {
    var next := done + [done[|done| - distance]];
    var r := CopyBack(done, n, distance);
    assert r[..|next|] == next;
    if i == 0 {
      assert r[|done|] == r[..|next|][|done|];
      assert r[|done| - distance] == r[..|next|][|done| - distance];
    } else {
      CopyIsPeriodic(next, n - 1, distance, i - 1);
    }
  }

  ghost predicate ValidTokens(ts: seq<Token>, produced: nat)
  {
    ts == [] || (ValidToken(ts[0], produced) &&
    ValidTokens(ts[1..], produced + if ts[0].Literal? then 1 else Length(ts[0])))
  }

  ghost function ExpandToken(done: seq<byte>, t: Token): (r: seq<byte>)
    requires ValidToken(t, |done|)
    ensures |r| == |done| + if t.Literal? then 1 else Length(t)
  {
    match t
    case Literal(v) => done + [v]
    case Copy(_, _, _, _) => CopyBack(done, Length(t), Distance(t))
  }

  ghost function ExpandTokens(done: seq<byte>, ts: seq<Token>): (r: seq<byte>)
    requires ValidTokens(ts, |done|)
    ensures |r| >= |done|
    decreases |ts|
  {
    if ts == [] then done else ExpandTokens(ExpandToken(done, ts[0]), ts[1..])
  }

  ghost predicate ValidBlock(b: Block, produced: nat) {
    match b
    case Stored(pad, data) => |pad| == 7 && |data| < 0x10000
    case Fixed(ts) => ValidTokens(ts, produced)
  }

  ghost function ExpandBlock(done: seq<byte>, b: Block): (r: seq<byte>)
    requires ValidBlock(b, |done|)
    ensures |r| >= |done|
  {
    match b
    case Stored(_, data) => done + data
    case Fixed(ts) => ExpandTokens(done, ts)
  }

  ghost predicate ValidBlocks(bs: seq<Block>, done: seq<byte>) {
    bs == [] || (ValidBlock(bs[0], |done|) && ValidBlocks(bs[1..], ExpandBlock(done, bs[0])))
  }

  ghost function ExpandBlocks(done: seq<byte>, bs: seq<Block>): (r: seq<byte>)
    requires ValidBlocks(bs, done)
    ensures |r| >= |done|
    decreases |bs|
  {
    if bs == [] then done else ExpandBlocks(ExpandBlock(done, bs[0]), bs[1..])
  }

  // Valid tokens and blocks are encodable.
  lemma {:induction false} ValidTokensEncodable(ts: seq<Token>, produced: nat)
    requires ValidTokens(ts, produced)
    ensures EncodableBlock(Fixed(ts))
    decreases |ts|
  {
    if ts == [] {
    } else {
      ValidTokensEncodable(ts[1..], produced + if ts[0].Literal? then 1 else Length(ts[0]));
      forall t | t in ts ensures Coded(t) {
        if t != ts[0] { assert t in ts[1..]; }
      }
    }
  }

  lemma {:induction false} ValidBlocksEncodable(bs: seq<Block>, done: seq<byte>)
    requires ValidBlocks(bs, done)
    ensures forall b :: b in bs ==> EncodableBlock(b)
    decreases |bs|
  {
    if bs == [] {
    } else {
      ValidBlocksEncodable(bs[1..], ExpandBlock(done, bs[0]));
      if bs[0].Fixed? { ValidTokensEncodable(bs[0].tokens, |done|); }
      forall b | b in bs ensures EncodableBlock(b) {
        if b != bs[0] { assert b in bs[1..]; }
      }
    }
  }
}
