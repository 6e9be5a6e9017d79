/**
 The inflater inverts every DEFLATE encoder that uses stored and fixed-Huffman blocks:
 whatever blocks were written, with whatever bytes after them, it yields their expansion.
 */
module InflateRoundTrip {
  import opened BitStream
  import opened Deflate
  import opened Inflate

  // The output once `done` has been written over the front of `orig`.
  ghost function Filled(done: seq<byte>, orig: seq<byte>): Output
    requires |done| <= |orig|
  {
    Output(done + orig[|done|..], |done|)
  }

  // No code is a prefix of another: the symbol whose code stands at p is the one decoded.
  lemma SymbolDecodes(s: seq<byte>, p: nat, sym: nat)
    requires sym < 288 && At(s, p, SymbolBits(sym))
    ensures DecodeSymbol(s, p) == (sym, p + CodeLength(sym))
  {
    hide At, Bit, Code, CodeBits, Pow2;
    ExtraBitRanges();
    CodeAt(s, p, CodeWord(sym), CodeLength(sym));
    SevenBits(s, p);
  }

  lemma {:induction false} MatchCopiesBack(done: seq<byte>, orig: seq<byte>, n: nat, distance: nat)
    requires 1 <= distance <= |done| && |done| + n <= |orig|
    ensures CopyMatch(Filled(done, orig), n, distance) == Filled(CopyBack(done, n, distance), orig)
    decreases n
  {
    if n == 0 {
    } else {
      var o := Filled(done, orig);
      var next := done + [done[|done| - distance]];
      assert o.buf[|done| - distance] == done[|done| - distance];
      assert o.buf[o.pos := o.buf[o.pos - distance]] == Filled(next, orig).buf;
      MatchCopiesBack(next, orig, n - 1, distance);
    }
  }

  lemma LiteralAppends(done: seq<byte>, orig: seq<byte>, v: byte)
    requires |done| < |orig|
    ensures PutLiteral(Filled(done, orig), v) == Filled(done + [v], orig)
  {
    assert Filled(done, orig).buf[|done| := v] == Filled(done + [v], orig).buf;
  }

  // The source's tables are the formulas of the standard.
  lemma LengthTable(c: nat)
    requires c < 29
    ensures LenBase()[c] == LengthFrom(c) && LenExtra()[c] == LengthBits(c)
  {
    hide Pow2;
    ExtraBitRanges();
  }

  lemma DistanceTable(c: nat)
    requires c < 30
    ensures DistBase()[c] == DistanceFrom(c) && DistExtra()[c] == DistanceBits(c)
  {
    hide Pow2;
    ExtraBitRanges();
  }

  // A length/distance pair is read back whole.
  lemma PairReads(s: seq<byte>, p: nat, t: Token)
    requires t.Copy? && Coded(t) && At(s, p, TokenBits(t))
    ensures var (sym, p1) := DecodeSymbol(s, p);
      && sym == 257 + t.lcode
      && ReadPair(s, p1, sym) == Match(true, p + |TokenBits(t)|, Length(t), Distance(t))
  {
    hide LenBase, LenExtra, DistBase, DistExtra, LengthFrom, LengthBits, DistanceFrom, DistanceBits;
    hide At, Field, Code, FieldBits, CodeBits, SymbolBits, Pow2, Bit, CodeWord, DecodeSymbol, ReadPair;
    var li, x, di, y := t.lcode, t.lextra, t.dcode, t.dextra;
    LengthTable(li);
    DistanceTable(di);
    SymbolDecodes_First(s, p, 257 + li, FieldBits(x, LenExtra()[li]) + (CodeBits(di, 5) + FieldBits(y, DistExtra()[di])));
    FieldsRead(s, p + CodeLength(257 + li), x, LenExtra()[li], di, y, DistExtra()[di]);
    PairParts(s, p + CodeLength(257 + li), li, di, x, y);
  }

  // Whatever the input is, a pair that is read has a length and a distance of the standard, and
  // symbol 285 is 258 bytes long without extra bits.
  lemma PairRange(s: seq<byte>, p: nat, sym: nat)
    requires sym >= 257
    ensures var r := ReadPair(s, p, sym);
      && (r.ok ==> sym <= 285 && 3 <= r.length <= 258 && 1 <= r.distance <= 32768)
      && (r.ok && sym == 285 ==> r.length == 258)
      && (sym == 285 ==> r == ReadDistance(s, p, 258))
  {
    hide Field, Code, Pow2, LenBase, LenExtra, DistBase, DistExtra, LengthFrom, LengthBits, DistanceFrom, DistanceBits;
    var li := sym - 257;
    CodeEnds();
    if li < 29 {
      LengthTable(li);
      FieldBound(s, p, LenExtra()[li]);
      var q := p + LenExtra()[li];
      var di := Code(s, q, 5);
      if di < 30 {
        DistanceTable(di);
        FieldBound(s, q + 5, DistExtra()[di]);
        CopyRange(Copy(li, Field(s, p, LenExtra()[li]), di, Field(s, q + 5, DistExtra()[di])));
      }
      if li == 28 { NoBits(s, p); }
    }
  }

  lemma {:induction false} FieldBound(s: seq<byte>, p: nat, n: nat)
    ensures Field(s, p, n) < Pow2(n)
    decreases n
  {
    hide Bit;
    if n > 0 { FieldBound(s, p + 1, n - 1); }
  }

  lemma NoBits(s: seq<byte>, p: nat)
    ensures Field(s, p, 0) == 0
  {
  }

  lemma SymbolDecodes_First(s: seq<byte>, p: nat, sym: nat, rest: seq<bit>)
    requires sym < 288 && At(s, p, SymbolBits(sym) + rest)
    ensures DecodeSymbol(s, p) == (sym, p + CodeLength(sym))
    ensures At(s, p + CodeLength(sym), rest)
  {
    AtConcat(s, p, SymbolBits(sym), rest);
    SymbolDecodes(s, p, sym);
  }

  // Length bits, distance code and distance bits, in that order.
  lemma FieldsRead(s: seq<byte>, p: nat, x: nat, xn: nat, di: nat, y: nat, yn: nat)
    requires x < Pow2(xn) && di < 30 && y < Pow2(yn)
    requires At(s, p, FieldBits(x, xn) + (CodeBits(di, 5) + FieldBits(y, yn)))
    ensures Field(s, p, xn) == x && Code(s, p + xn, 5) == di && Field(s, p + xn + 5, yn) == y
  {
    hide At, Field, Code, FieldBits, CodeBits, Bit;
    AtConcat(s, p, FieldBits(x, xn), CodeBits(di, 5) + FieldBits(y, yn));
    AtConcat(s, p + xn, CodeBits(di, 5), FieldBits(y, yn));
    FieldAt(s, p, x, xn);
    ExtraBitRanges();
    CodeAt(s, p + xn, di, 5);
    FieldAt(s, p + xn + 5, y, yn);
  }

  lemma PairParts(s: seq<byte>, p: nat, li: nat, di: nat, x: nat, y: nat)
    requires li < 29 && di < 30
    requires Field(s, p, LenExtra()[li]) == x && Code(s, p + LenExtra()[li], 5) == di
    requires Field(s, p + LenExtra()[li] + 5, DistExtra()[di]) == y
    ensures ReadPair(s, p, 257 + li)
         == Match(true, p + LenExtra()[li] + 5 + DistExtra()[di], LenBase()[li] + x, DistBase()[di] + y)
  {
    hide LenBase, LenExtra, DistBase, DistExtra, Field, Code;
  }

  lemma TokenDecodes(s: seq<byte>, p: nat, t: Token, rest: seq<bit>, done: seq<byte>, orig: seq<byte>)
    requires ValidToken(t, |done|) && At(s, p, TokenBits(t) + rest)
    requires |ExpandToken(done, t)| <= |orig|
    ensures var (sym, p1) := DecodeSymbol(s, p);
      && sym != END_OF_BLOCK
      && OneSymbol(s, p1, sym, Filled(done, orig))
      == Outcome(true, p + |TokenBits(t)|, Filled(ExpandToken(done, t), orig))
    ensures At(s, p + |TokenBits(t)|, rest)
  {
    hide LenBase, LenExtra, DistBase, DistExtra, LengthFrom, LengthBits, DistanceFrom, DistanceBits, FieldBits, CodeBits, Pow2;
    hide At, Field, Code, DecodeSymbol, ReadPair, CopyMatch, CopyBack, PutLiteral, Filled, SymbolBits;
    AtConcat(s, p, TokenBits(t), rest);
    match t
    case Literal(v) =>
      SymbolDecodes(s, p, v);
      LiteralAppends(done, orig, v);
    case Copy(_, _, _, _) =>
      PairReads(s, p, t);
      MatchCopiesBack(done, orig, Length(t), Distance(t));
  }

  // The first token of a block and the rest.
  lemma TokensOpen(ts: seq<Token>, done: seq<byte>)
    requires ts != [] && ValidTokens(ts, |done|) && EncodableBlock(Fixed(ts))
    ensures ValidToken(ts[0], |done|) && EncodableBlock(Fixed(ts[1..])) && (ts[0].Copy? ==> ts[0].lcode < 29)
    ensures forall t :: t in ts[1..] && t.Copy? ==> t.lcode < 29
    ensures ValidTokens(ts[1..], |ExpandToken(done, ts[0])|)
    ensures ExpandTokens(done, ts) == ExpandTokens(ExpandToken(done, ts[0]), ts[1..])
    ensures TokensBits(ts) == TokenBits(ts[0]) + TokensBits(ts[1..])
  {
    hide TokenBits, ExpandToken;
    assert ts[0] in ts && forall t :: t in ts[1..] ==> t in ts;
  }

  // One symbol of a block and the rest.
  lemma FixedOpen(s: seq<byte>, p: nat, o: Output)
    ensures var (sym, p1) := DecodeSymbol(s, p);
      FixedBlock(s, p, o) ==
        if sym == END_OF_BLOCK then Outcome(true, p1, o)
        else
          var r := OneSymbol(s, p1, sym, o);
          if r.ok then FixedBlock(s, r.next, r.out) else r
  {
    hide DecodeSymbol, OneSymbol;
  }

  lemma {:induction false} TokensDecode(s: seq<byte>, p: nat, ts: seq<Token>, done: seq<byte>, orig: seq<byte>)
    requires ValidTokens(ts, |done|) && EncodableBlock(Fixed(ts))
    requires At(s, p, TokensBits(ts))
    requires |ExpandTokens(done, ts)| <= |orig|
    ensures FixedBlock(s, p, Filled(done, orig))
         == Outcome(true, p + |TokensBits(ts)|, Filled(ExpandTokens(done, ts), orig))
    decreases |ts|
  {
    hide At, DecodeSymbol, OneSymbol, TokenBits, SymbolBits, ExpandToken, Filled, FixedBlock, Coded, ValidToken;
    FixedOpen(s, p, Filled(done, orig));
    if ts == [] {
      SymbolDecodes(s, p, END_OF_BLOCK);
    } else {
      TokensOpen(ts, done);
      hide TokensBits, ExpandTokens, ValidTokens, EncodableBlock;
      var next := ExpandToken(done, ts[0]);
      assert |ExpandTokens(next, ts[1..])| >= |next|;
      TokenDecodes(s, p, ts[0], TokensBits(ts[1..]), done, orig);
      TokensDecode(s, p + |TokenBits(ts[0])|, ts[1..], next, orig);
    }
  }

  lemma {:induction false} BytesRead(s: seq<byte>, z: nat, data: seq<byte>)
    requires At(s, 8 * z, BytesBits(data))
    ensures z + |data| <= |s| && s[z..z + |data|] == data
    decreases |data|
  {
    if data == [] {
    } else {
      AtConcat(s, 8 * z, FieldBits(data[0], 8), BytesBits(data[1..]));
      ExtraBitRanges();
      FieldAt(s, 8 * z, data[0], 8);
      FieldByte(s, z);
      BytesRead(s, z + 1, data[1..]);
    }
  }

  lemma {:induction false} StoredCopies(s: seq<byte>, z: nat, data: seq<byte>, done: seq<byte>, orig: seq<byte>)
    requires z + |data| <= |s| && s[z..z + |data|] == data
    requires |done| + |data| <= |orig|
    ensures StoredBytes(s, z, |data|, Filled(done, orig)) == (z + |data|, Filled(done + data, orig))
    decreases |data|
  {
    if data == [] {
      assert done + data == done;
    } else {
      assert s[z] == s[z..z + |data|][0];
      LiteralAppends(done, orig, s[z]);
      assert s[z + 1..z + 1 + |data[1..]|] == s[z..z + |data|][1..];
      StoredCopies(s, z + 1, data[1..], done + [data[0]], orig);
      assert done + [data[0]] + data[1..] == done + data;
    }
  }

  lemma PadEnds(p: nat)
    ensures p + PadLength(p) == 8 * ((p + 7) / 8)
  {
  }

  // A stored block's length words and bytes, where they stand.
  lemma StoredStands(s: seq<byte>, z: nat, data: seq<byte>)
    requires |data| < 0x10000 && At(s, 8 * z, BytesBits(StoredHeader(|data|) + data))
    ensures z + 4 + |data| <= |s| && s[z..z + 4] == StoredHeader(|data|) && s[z + 4..z + 4 + |data|] == data
  {
    hide At, BytesBits, StoredHeader;
    var all := StoredHeader(|data|) + data;
    BytesRead(s, z, all);
    var stored := s[z..z + |all|];
    assert s[z..z + 4] == stored[..4] && s[z + 4..z + 4 + |data|] == stored[4..];
  }

  lemma HeaderLengths(s: seq<byte>, z: nat, n: nat)
    requires n < 0x10000 && z + 4 <= |s| && s[z..z + 4] == StoredHeader(n)
    ensures s[z] as nat + 256 * s[z + 1] as nat == n
  {
    var h := s[z..z + 4];
    assert h[0] == s[z] && h[1] == s[z + 1];
  }

  lemma StoredOpens(s: seq<byte>, p: nat, z: nat, n: nat, o: Output)
    requires z == (p + 7) / 8 && z + 4 <= |s| && s[z] as nat + 256 * s[z + 1] as nat == n
    ensures StoredBlock(s, p, o) == var (z', o') := StoredBytes(s, z + 4, n, o); Outcome(true, 8 * z', o')
  {
    hide StoredBytes;
  }

  // A stored block, whatever its pad bits are.
  lemma StoredDecodes(s: seq<byte>, p: nat, pad: seq<bit>, data: seq<byte>, done: seq<byte>, orig: seq<byte>)
    requires |pad| == PadLength(p) && |data| < 0x10000 && |done| + |data| <= |orig|
    requires At(s, p, pad + BytesBits(StoredHeader(|data|) + data))
    ensures StoredBlock(s, p, Filled(done, orig))
         == Outcome(true, p + |pad| + 32 + 8 * |data|, Filled(done + data, orig))
  {
    hide At, BytesBits, StoredBytes, Filled, PadLength, StoredHeader, StoredBlock;
    var z := (p + 7) / 8;
    AtConcat(s, p, pad, BytesBits(StoredHeader(|data|) + data));
    PadEnds(p);
    StoredStands(s, z, data);
    HeaderLengths(s, z, |data|);
    StoredOpens(s, p, z, |data|, Filled(done, orig));
    StoredCopies(s, z + 4, data, done, orig);
  }

  lemma BlockDecodes(s: seq<byte>, p: nat, b: Block, final: bit, done: seq<byte>, orig: seq<byte>)
    requires ValidBlock(b, |done|) && EncodableBlock(b)
    requires At(s, p, BlockBits(b, final, p))
    requires |ExpandBlock(done, b)| <= |orig|
    ensures OneBlock(s, p, Filled(done, orig))
         == Outcome(true, p + |BlockBits(b, final, p)|, Filled(ExpandBlock(done, b), orig))
    ensures Bit(s, p) == final
  {
    hide At, Bit, Field, FixedBlock, StoredBlock, ExpandBlock, ValidBlock, Filled, BodyBits;
    var kind: bit := if b.Stored? then 0 else 1;
    AtConcat(s, p, [final, kind, 0], BodyBits(b, p + 3));
    HeaderRead(s, p, final, kind, 0);
    BodyDecodes(s, p + 3, b, done, orig);
  }

  lemma BodyDecodes(s: seq<byte>, p: nat, b: Block, done: seq<byte>, orig: seq<byte>)
    requires ValidBlock(b, |done|) && EncodableBlock(b)
    requires At(s, p, BodyBits(b, p))
    requires |ExpandBlock(done, b)| <= |orig|
    ensures (if b.Stored? then StoredBlock(s, p, Filled(done, orig)) else FixedBlock(s, p, Filled(done, orig)))
         == Outcome(true, p + |BodyBits(b, p)|, Filled(ExpandBlock(done, b), orig))
  {
    hide At, StoredBlock, FixedBlock, ExpandTokens, TokensBits, BytesBits, PadLength, ValidTokens, Filled;
    match b
    case Stored(pad, data) => StoredDecodes(s, p, pad[..PadLength(p)], data, done, orig);
    case Fixed(ts) => TokensDecode(s, p, ts, done, orig);
  }

  lemma HeaderRead(s: seq<byte>, p: nat, final: bit, low: bit, high: bit)
    requires At(s, p, [final, low, high])
    ensures Bit(s, p) == final && Field(s, p + 1, 2) == low as nat + 2 * high as nat
  {
    hide Bit;
    assert [final, low, high][1..] == [low, high];
    assert At(s, p + 1, [low, high]) && [low, high][1..] == [high];
    assert At(s, p + 2, [high]);
    TwoBits(s, p + 1);
  }

  lemma TwoBits(s: seq<byte>, p: nat)
    ensures Field(s, p, 2) == Bit(s, p) as nat + 2 * Bit(s, p + 1) as nat
  {
    assert Field(s, p + 1, 1) == Bit(s, p + 1) as nat + 2 * Field(s, p + 2, 0);
  }

  lemma {:induction false} BlocksDecode(s: seq<byte>, p: nat, bs: seq<Block>, done: seq<byte>, orig: seq<byte>)
    requires |bs| > 0 && ValidBlocks(bs, done) && forall b :: b in bs ==> EncodableBlock(b)
    requires At(s, p, BlocksBits(bs, p))
    requires |ExpandBlocks(done, bs)| <= |orig|
    ensures Blocks(s, p, Filled(done, orig))
         == Outcome(true, p + |BlocksBits(bs, p)|, Filled(ExpandBlocks(done, bs), orig))
    decreases |bs|
  {
    hide At, OneBlock, BlockBits, ExpandBlock, ValidBlock, Filled, Bit;
    var next := ExpandBlock(done, bs[0]);
    assert |ExpandBlocks(next, bs[1..])| >= |next|;
    if |bs| == 1 {
      BlockDecodes(s, p, bs[0], 1, done, orig);
      assert ExpandBlocks(next, bs[1..]) == next;
    } else {
      var first := BlockBits(bs[0], 0, p);
      AtConcat(s, p, first, BlocksBits(bs[1..], p + |first|));
      BlockDecodes(s, p, bs[0], 0, done, orig);
      BlocksDecode(s, p + |first|, bs[1..], next, orig);
    }
  }

  // The main result: any two header bytes, any valid blocks, any trailing bytes (the Adler-32
  // checksum, say) and any buffer the expansion fits in.  The rest of the buffer is untouched.
  lemma InflateInvertsDeflate(header: seq<byte>, bs: seq<Block>, tail: seq<byte>, buf: seq<byte>)
    requires |header| == 2 && |bs| > 0 && ValidBlocks(bs, [])
    requires |ExpandBlocks([], bs)| <= |buf|
    ensures forall b :: b in bs ==> EncodableBlock(b)
    ensures var r := Zlib(header + Pack(BlocksBits(bs, 0)) + tail, buf);
      var data := ExpandBlocks([], bs);
      r.ok && r.out.pos == |data| && r.out.buf == data + buf[|data|..]
  {
    hide At, Pack, BlocksBits, Blocks, ExpandBlocks, ValidBlocks, EncodableBlock;
    ValidBlocksEncodable(bs, []);
    var bits := BlocksBits(bs, 0);
    var input := header + Pack(bits) + tail;
    assert input[2..] == Pack(bits) + tail;
    PackAt(bits, tail);
    BlocksDecode(input[2..], 0, bs, [], buf);
    assert Filled([], buf).buf == buf;
  }
}
