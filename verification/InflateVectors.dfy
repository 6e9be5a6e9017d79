/**
 A zlib stream worked out by hand: 259 times the letter a as a literal and one copy of length 258,
 written with length symbol 285.  It fixes the bit order and the codes of shell/draw.c outright.
 */
module InflateVectors {
  import opened BitStream
  import opened Deflate
  import opened Inflate
  import opened InflateRoundTrip

  function Letters(n: nat): (s: seq<byte>)
    ensures |s| == n
  {
    seq(n, _ => 97)
  }

  function Tokens(): seq<Token> {
    [Literal(97), Copy(28, 0, 0, 0)]
  }

  lemma {:induction false} CopiesLetters(k: nat, n: nat)
    requires k > 0
    ensures CopyBack(Letters(k), n, 1) == Letters(k + n)
    decreases n
  {
    if n > 0 {
      assert Letters(k) + [97] == Letters(k + 1);
      CopiesLetters(k + 1, n - 1);
    }
  }

  // What the tokens stand for.
  lemma TokensMean()
    ensures var bs := [Fixed(Tokens())];
      ValidBlocks(bs, []) && ExpandBlocks([], bs) == Letters(259) && EncodableBlock(bs[0])
  {
    var ts := Tokens();
    var copy := ts[1];
    CodeEnds();
    ExtraBitRanges();
    assert Length(copy) == 258 && Distance(copy) == 1 && Coded(copy);
    hide LengthFrom, LengthBits, DistanceFrom, DistanceBits, Pow2, Length, Distance, Coded;
    assert ts[1..] == [copy] && [copy][1..] == [];
    assert [] + [97] == Letters(1);
    CopiesLetters(1, 258);
    hide CopyBack;
    assert ValidTokens([copy], 1);
    assert ExpandTokens(Letters(1), [copy]) == ExpandTokens(Letters(259), []);
    var bs := [Fixed(ts)];
    assert bs[1..] == [];
  }

  // ---- The bits ----

  lemma OneBit(v: nat, n: nat)
    requires n > 0
    ensures CodeBits(v, n) == CodeBits(v / 2, n - 1) + [v % 2] && CodeBits(v, 0) == []
  {
  }

  // Four bits and what comes before them.
  lemma FourBits(v: nat, n: nat)
    requires n >= 4
    ensures CodeBits(v, n) == CodeBits(v / 16, n - 4) + [v / 8 % 2, v / 4 % 2, v / 2 % 2, v % 2]
  {
    hide CodeBits;
    OneBit(v, n);
    OneBit(v / 2, n - 1);
    OneBit(v / 4, n - 2);
    OneBit(v / 8, n - 3);
    assert v / 2 / 2 == v / 4 && v / 4 / 2 == v / 8 && v / 8 / 2 == v / 16;
    var front := CodeBits(v / 16, n - 4);
    assert front + [v / 8 % 2] + [v / 4 % 2] + [v / 2 % 2] + [v % 2] == front + [v / 8 % 2, v / 4 % 2, v / 2 % 2, v % 2];
  }

  // The symbol a, symbol 285, distance code 0 and the end of the block.
  lemma CodesAre()
    ensures SymbolBits(97) == [1, 0, 0, 1, 0, 0, 0, 1] && SymbolBits(285) == [1, 1, 0, 0, 0, 1, 0, 1]
    ensures CodeBits(0, 5) == [0, 0, 0, 0, 0] && SymbolBits(256) == [0, 0, 0, 0, 0, 0, 0] && FieldBits(0, 0) == []
  {
    hide CodeBits;
    FourBits(145, 8);
    FourBits(9, 4);
    OneBit(0, 1);
    FourBits(197, 8);
    FourBits(12, 4);
    FourBits(0, 5);
    FourBits(0, 7);
    OneBit(0, 3);
    OneBit(0, 2);
  }

  function BlockBytes(): seq<byte> {
    [0x4b, 0x1c, 0x05, 0x00]
  }

  function Bits31(): seq<bit> {
    [1, 1, 0, 1, 0, 0, 1, 0] + ([0, 0, 1, 1, 1, 0, 0, 0] + ([1, 0, 1, 0, 0, 0, 0, 0] + [0, 0, 0, 0, 0, 0, 0]))
  }

  // The block's bits, regrouped by eight.
  lemma Regrouped(a: seq<bit>, b: seq<bit>, d: seq<bit>, e: seq<bit>)
    requires a == [1, 0, 0, 1, 0, 0, 0, 1] && b == [1, 1, 0, 0, 0, 1, 0, 1]
    requires d == [0, 0, 0, 0, 0] && e == [0, 0, 0, 0, 0, 0, 0]
    ensures [1, 1, 0] + (a + ((b + ([] + (d + []))) + e)) == Bits31()
  {
    var whole: seq<bit> := [1, 1, 0] + (a + ((b + ([] + (d + []))) + e));
    assert |whole| == 31 && |Bits31()| == 31;
  }

  lemma CopyBits(copy: Token)
    requires copy == Copy(28, 0, 0, 0)
    ensures TokenBits(copy) == SymbolBits(285) + ([] + (CodeBits(0, 5) + []))
  {
    CodesAre();
    CodeEnds();
    hide CodeBits, SymbolBits;
    assert DistanceBits(0) == 0;
  }

  lemma BlockIs(b: Block)
    requires EncodableBlock(b) && b.Fixed?
    ensures BlocksBits([b], 0) == [1, 1, 0] + TokensBits(b.tokens)
  {
    hide TokensBits;
  }

  lemma BitsAre()
    requires EncodableBlock(Fixed(Tokens()))
    ensures BlocksBits([Fixed(Tokens())], 0) == Bits31()
  {
    hide CodeBits, SymbolBits, TokenBits, Pow2, Coded, BlocksBits, Bits31;
    var ts := Tokens();
    var copy := ts[1];
    BlockIs(Fixed(ts));
    assert ts[1..] == [copy] && [copy][1..] == [];
    assert TokensBits([]) == SymbolBits(256);
    assert TokensBits([copy]) == TokenBits(copy) + TokensBits([]);
    assert TokensBits(ts) == TokenBits(ts[0]) + TokensBits([copy]);
    hide TokensBits;
    CopyBits(copy);
    LiteralBits();
    CodesAre();
    Regrouped(SymbolBits(97), SymbolBits(285), CodeBits(0, 5), SymbolBits(256));
  }

  lemma LiteralBits()
    ensures TokenBits(Literal(97)) == SymbolBits(97)
  {
    hide SymbolBits;
  }

  // ---- The bytes ----

  lemma ValueCons(b: bit, rest: seq<bit>)
    ensures Value([b] + rest) == b as int + 2 * Value(rest) && Value([]) == 0
  {
    assert ([b] + rest)[1..] == rest;
  }

  lemma EightValue(b0: bit, b1: bit, b2: bit, b3: bit, b4: bit, b5: bit, b6: bit, b7: bit)
    ensures PackByte([b0, b1, b2, b3, b4, b5, b6, b7])
      == b0 as int + 2 * b1 as int + 4 * b2 as int + 8 * b3 as int + 16 * b4 as int + 32 * b5 as int + 64 * b6 as int + 128 * b7 as int
  {
    hide Value;
    var s7: seq<bit> := [b7] + [];
    var s6 := [b6] + s7;
    var s5 := [b5] + s6;
    var s4 := [b4] + s5;
    var s3 := [b3] + s4;
    var s2 := [b2] + s3;
    var s1 := [b1] + s2;
    var s0 := [b0] + s1;
    assert s0 == [b0, b1, b2, b3, b4, b5, b6, b7];
    ValueCons(b7, []);
    ValueCons(b6, s7);
    ValueCons(b5, s6);
    ValueCons(b4, s5);
    ValueCons(b3, s4);
    ValueCons(b2, s3);
    ValueCons(b1, s2);
    ValueCons(b0, s1);
  }

  lemma PackFirst(first: seq<bit>, rest: seq<bit>)
    requires |first| == 8
    ensures Pack(first + rest) == [PackByte(first)] + Pack(rest)
  {
    hide PackByte;
    assert (first + rest)[..8] == first && (first + rest)[8..] == rest;
  }

  lemma PackLast(last: seq<bit>)
    requires last == [0, 0, 0, 0, 0, 0, 0]
    ensures Pack(last) == [0]
  {
    EightValue(0, 0, 0, 0, 0, 0, 0, 0);
    hide PackByte;
    assert last + seq(8 - |last|, _ => 0) == [0, 0, 0, 0, 0, 0, 0, 0];
  }

  lemma PackThree(a: seq<bit>, b: seq<bit>, c: seq<bit>, d: seq<bit>)
    requires |a| == |b| == |c| == 8
    ensures Pack(a + (b + (c + d))) == [PackByte(a), PackByte(b), PackByte(c)] + Pack(d)
  {
    hide Pack, PackByte;
    PackFirst(a, b + (c + d));
    PackFirst(b, c + d);
    PackFirst(c, d);
  }

  lemma PacksTo()
    ensures Pack(Bits31()) == BlockBytes()
  {
    hide Pack, PackByte;
    var a, b, c: seq<bit>, d: seq<bit> := [1, 1, 0, 1, 0, 0, 1, 0], [0, 0, 1, 1, 1, 0, 0, 0], [1, 0, 1, 0, 0, 0, 0, 0], [0, 0, 0, 0, 0, 0, 0];
    PackThree(a, b, c, d);
    PackLast(d);
    EightValue(1, 1, 0, 1, 0, 0, 1, 0);
    EightValue(0, 0, 1, 1, 1, 0, 0, 0);
    EightValue(1, 0, 1, 0, 0, 0, 0, 0);
  }

  // The stream, with any two header bytes and anything behind it.
  lemma LettersInflate(h0: byte, h1: byte, tail: seq<byte>, buf: seq<byte>)
    requires |buf| >= 259
    ensures var r := Zlib([h0, h1, 0x4b, 0x1c, 0x05, 0x00] + tail, buf);
      r.ok && r.out.pos == 259 && r.out.buf == Letters(259) + buf[259..]
  {
    TokensMean();
    hide Tokens, ValidBlocks, ExpandBlocks, EncodableBlock, Zlib, Pack, BlocksBits, Bits31, Letters;
    var bs := [Fixed(Tokens())];
    BitsAre();
    PacksTo();
    InflateInvertsDeflate([h0, h1], bs, tail, buf);
    assert [h0, h1] + BlockBytes() + tail == [h0, h1, 0x4b, 0x1c, 0x05, 0x00] + tail;
  }
}
