/**
 The streaming SHA-1 of net/ssh.c: a context object fed a byte at a time, proved to give the
 digest of everything it was fed, and the HMAC built on it.
 */
module Sha1 {
  import opened Sha1Spec

  class Context {
    const state: array<bv32>
    const buf: array<bv8>
    var count: nat
    // Everything fed so far, and how many blocks of it have been hashed.
    ghost var total: seq<bv8>
    ghost var blocks: nat

    ghost predicate Valid()
      reads this, state, buf
    {
      && state.Length == 5 && buf.Length == BLOCK && count == |total| % TWO64
      && Holds(state[..], buf[..], total, blocks, |total| - BLOCK * blocks)
    }

    // sha1_init
    constructor ()
      ensures Valid() && total == [] && fresh(state) && fresh(buf)
    {
      state := new bv32[] [0x67452301, 0xEFCDAB89, 0x98BADCFE, 0x10325476, 0xC3D2E1F0];
      buf := new bv8[BLOCK];
      count, total, blocks := 0, [], 0;
    }

    // sha1_update: feeding pieces one after the other is feeding their concatenation.
    method Update(data: seq<bv8>)
      requires Valid()
      modifies this, state, buf
      ensures Valid() && total == old(total) + data
    {
      hide Holds;
      HoldsBounds(state[..], buf[..], total, blocks, |total| - BLOCK * blocks);
      CountMod(|total|, blocks);
      ghost var before := total;
      var j: nat := count % 64;
      CountSum(|total|, |data|);
      count := (count + |data|) % TWO64;
      ghost var after := count;
      var i := 0;
      assert data[..0] == [] && before + [] == before && data[..|data|] == data;
      while i < |data|
        invariant 0 <= i <= |data| && state.Length == 5 && buf.Length == BLOCK
        invariant total == before + data[..i] && Holds(state[..], buf[..], total, blocks, j) && j < BLOCK
        invariant count == after
      {
        assert data[..i + 1] == data[..i] + [data[i]];
        assert before + data[..i + 1] == total + [data[i]];
        j := Put(data[i], j);
        i := i + 1;
      }
      HoldsBounds(state[..], buf[..], total, blocks, j);
    }

    method Put(x: bv8, j: nat) returns (k: nat)
      requires state.Length == 5 && buf.Length == BLOCK && j < BLOCK && Holds(state[..], buf[..], total, blocks, j)
      modifies this`total, this`blocks, state, buf
      ensures k < BLOCK && total == old(total) + [x] && Holds(state[..], buf[..], total, blocks, k)
    {
      ghost var t, n, h := total, blocks, state[..];
      ghost var b := buf[..];
      buf[j] := x;
      k := j + 1;
      total := total + [x];
      HoldsPut(h, b, t, n, j, x);
      hide Holds;
      if k == 64 {
        Transform(state, buf);
        k := 0;
        blocks := blocks + 1;
      }
    }

    // sha1_final
    method Final(digest: array<bv8>)
      requires Valid() && digest.Length == 20 && digest != buf
      modifies this, state, buf, digest
      ensures digest[..] == Digest(old(total))
    {
      hide Holds, LengthField, PadZeros, Absorb, Bytes;
      ghost var m := total;
      var field := LengthBytes(count * 8 % TWO64);
      BitCount(|m|);
      PadOut();
      Update(field);
      assert total == Pad(m);
      Output(digest);
    }

    static method LengthBytes(bc: nat) returns (field: seq<bv8>)
      ensures field == LengthField(bc)
    {
      hide Byte, ShiftBytes;
      var finalcount := new bv8[8];
      for i := 0 to 8
        invariant forall x :: 0 <= x < i ==> finalcount[x] == LengthField(bc)[x]
      {
        finalcount[i] := Byte(ShiftBytes(bc, 7 - i) % 256);
      }
      field := finalcount[..];
    }

    // The byte 0x80, then zeros up to the place of the length.
    method PadOut()
      requires Valid()
      modifies this, state, buf
      ensures Valid() && total == old(total) + [0x80] + Zeros(PadZeros(|old(total)|))
    {
      hide Holds, PadZeros;
      ghost var m, k := total, 0;
      Update([0x80]);
      assert m + [0x80] + Zeros(0) == m + [0x80];
      PadSteps(|m|, 0);
      CountIs(|total|);
      while count % 64 != 56
        invariant Valid() && total == m + [0x80] + Zeros(k) && k <= PadZeros(|m|) && count % 64 == |total| % 64
        decreases PadZeros(|m|) - k
      {
        PadSteps(|m|, k);
        Update([0]);
        assert Zeros(k) + [0] == Zeros(k + 1);
        assert total == m + [0x80] + Zeros(k + 1);
        k := k + 1;
        CountIs(|total|);
      }
      PadSteps(|m|, k);
    }

    method Output(digest: array<bv8>)
      requires Valid() && digest.Length == 20 && digest != buf && |total| % BLOCK == 0
      modifies digest
      ensures digest[..] == Bytes(Absorb(Initial(), total, |total| / BLOCK))
    {
      hide ByteOf, Absorb, Bytes, Holds;
      HoldsBounds(state[..], buf[..], total, blocks, |total| - BLOCK * blocks);
      BlockCount(|total|, blocks);
      ghost var h := HashOf(state[..]);
      for i := 0 to 20
        modifies digest
        invariant state.Length == 5 && h == HashOf(state[..])
        invariant forall x :: 0 <= x < i ==> digest[x] == Bytes(h)[x]
      {
        DigestByte(h, i);
        digest[i] := ByteOf(state[i / 4], i % 4);
      }
      assert digest[..] == Bytes(h);
    }
  }

  // sha1_transform
  method Transform(state: array<bv32>, buf: array<bv8>)
    requires state.Length == 5 && buf.Length == BLOCK
    modifies state
    ensures HashOf(state[..]) == Compress(HashOf(old(state[..])), buf[..])
  {
    ghost var h := HashOf(state[..]);
    var w := Expand(buf);
    hide Schedule, Rounds;
    var a, b, c, d, e := Stir(state[0], state[1], state[2], state[3], state[4], w[..]);
    AddTo(state, a, b, c, d, e);
  }

  // The eighty rounds.
  method Stir(a0: bv32, b0: bv32, c0: bv32, d0: bv32, e0: bv32, w: seq<bv32>)
    returns (a: bv32, b: bv32, c: bv32, d: bv32, e: bv32)
    requires |w| == 80
    ensures Hash(a, b, c, d, e) == Rounds(Hash(a0, b0, c0, d0, e0), w, 80)
  {
    hide Round;
    a, b, c, d, e := a0, b0, c0, d0, e0;
    var i := 0;
    while i < 80
      invariant 0 <= i <= 80 && Hash(a, b, c, d, e) == Rounds(Hash(a0, b0, c0, d0, e0), w, i)
    {
      a, b, c, d, e := Step(a, b, c, d, e, i, w[i]);
      i := i + 1;
    }
  }

  method AddTo(state: array<bv32>, a: bv32, b: bv32, c: bv32, d: bv32, e: bv32)
    requires state.Length == 5
    modifies state
    ensures HashOf(state[..]) == Plus(HashOf(old(state[..])), Hash(a, b, c, d, e))
  {
    hide Add;
    state[0] := Add(state[0], a);
    state[1] := Add(state[1], b);
    state[2] := Add(state[2], c);
    state[3] := Add(state[3], d);
    state[4] := Add(state[4], e);
  }

  method Expand(buf: array<bv8>) returns (w: array<bv32>)
    requires buf.Length == BLOCK
    ensures fresh(w) && w.Length == 80 && w[..] == Schedule(buf[..], 80)
  {
    hide Schedule;
    ghost var block := buf[..];
    w := new bv32[80];
    NoWords(block);
    assert w[..0] == [];
    var i := 0;
    while i < 16
      invariant 0 <= i <= 16 && buf[..] == block && w[..i] == Schedule(block, i)
    {
      CopyWord(buf, w, i);
      i := i + 1;
    }
    while i < 80
      invariant 16 <= i <= 80 && buf[..] == block && w[..i] == Schedule(block, i)
    {
      MixWord(w, i, block);
      i := i + 1;
    }
    assert w[..80] == w[..];
  }

  method CopyWord(buf: array<bv8>, w: array<bv32>, i: nat)
    requires buf.Length == BLOCK && w.Length == 80 && i < 16 && w[..i] == Schedule(buf[..], i)
    modifies w
    ensures w[..i + 1] == Schedule(buf[..], i + 1)
  {
    hide Schedule, Join4;
    ghost var done := w[..i];
    w[i] := Join4(buf[4 * i], buf[4 * i + 1], buf[4 * i + 2], buf[4 * i + 3]);
    EarlyWord(buf[..], i);
    assert w[..i + 1] == done + [w[i]];
  }

  method MixWord(w: array<bv32>, i: nat, ghost block: seq<bv8>)
    requires w.Length == 80 && 16 <= i < 80 && |block| == BLOCK && w[..i] == Schedule(block, i)
    modifies w
    ensures w[..i + 1] == Schedule(block, i + 1)
  {
    hide Schedule, Mix;
    ghost var done := w[..i];
    w[i] := Mix(w[i - 3], w[i - 8], w[i - 14], w[i - 16]);
    LaterWord(block, i);
    assert w[..i + 1] == done + [w[i]];
  }

  lemma NoWords(block: seq<bv8>)
    requires |block| == BLOCK
    ensures Schedule(block, 0) == []
  {
  }

  lemma EarlyWord(block: seq<bv8>, n: nat)
    requires |block| == BLOCK && n < 16
    ensures Schedule(block, n + 1) == Schedule(block, n) + [Join4(block[4 * n], block[4 * n + 1], block[4 * n + 2], block[4 * n + 3])]
  {
    hide Join4, Mix;
  }

  lemma LaterWord(block: seq<bv8>, n: nat)
    requires |block| == BLOCK && 16 <= n < 80
    ensures var ws := Schedule(block, n); Schedule(block, n + 1) == ws + [Mix(ws[n - 3], ws[n - 8], ws[n - 14], ws[n - 16])]
  {
    hide Mix, WordAt;
  }

  // One round, with the choices written as in the source.
  method Step(a: bv32, b: bv32, c: bv32, d: bv32, e: bv32, i: nat, w: bv32)
    returns (a': bv32, b': bv32, c': bv32, d': bv32, e': bv32)
    requires i < 80
    ensures Hash(a', b', c', d', e') == Round(Hash(a, b, c, d, e), i, w)
  {
    var f, k;
    if i < 20 {
      f, k := (b & c) | (!b & d), 0x5A827999;
      OrIsXor(b, c, d);
    } else if i < 40 {
      f, k := b ^ c ^ d, 0x6ED9EBA1;
    } else if i < 60 {
      f, k := (b & c) | (b & d) | (c & d), 0x8F1BBCDC;
      OrIsXor(b, c, d);
    } else {
      f, k := b ^ c ^ d, 0xCA62C1D6;
    }
    assert f == F(i, b, c, d) && k == K(i);
    hide Rotl, Sum5, F, K;
    a', b', c', d', e' := Sum5(Rotl(a, 5), f, e, k, w), a, Rotl(b, 30), c, d;
  }

  lemma OrIsXor(b: bv32, c: bv32, d: bv32)
    ensures (b & c) | (!b & d) == Ch(b, c, d)
    ensures (b & c) | (b & d) | (c & d) == Maj(b, c, d)
  {
  }

  // One call over a whole message.
  method Sha1(data: seq<bv8>, digest: array<bv8>)
    requires digest.Length == 20
    modifies digest
    ensures digest[..] == Digest(data)
  {
    var ctx := new Context();
    ctx.Update(data);
    assert [] + data == data;
    ctx.Final(digest);
  }

  // hmac_sha1
  method HmacSha1(key: seq<bv8>, data: seq<bv8>, out: array<bv8>)
    requires out.Length == 20
    modifies out
    ensures out[..] == Hmac(key, data)
  {
    hide Digest, XorAll, KeyBlock;
    var ipad, opad := MakePads(key);
    Sha1Two(ipad, data, out);
    Sha1Two(opad, out[..], out);
  }

  // The key, hashed if it is too long, under the two masks.
  method MakePads(key: seq<bv8>) returns (inner: seq<bv8>, outer: seq<bv8>)
    ensures inner == XorAll(KeyBlock(key), 0x36) && outer == XorAll(KeyBlock(key), 0x5c)
  {
    hide Digest;
    var k := key;
    if |key| > 64 {
      var kbuf := new bv8[20];
      Sha1(key, kbuf);
      k := kbuf[..];
    }
    var ipad, opad := new bv8[64], new bv8[64];
    ghost var block := KeyBlock(key);
    for i := 0 to 64
      modifies ipad, opad
      invariant forall x :: 0 <= x < i ==> ipad[x] == XorAll(block, 0x36)[x] && opad[x] == XorAll(block, 0x5c)[x]
    {
      var kb := if i < |k| then k[i] else 0;
      assert kb == block[i];
      ipad[i], opad[i] := kb ^ 0x36, kb ^ 0x5c;
    }
    inner, outer := ipad[..], opad[..];
  }

  // Two updates of one context.
  method Sha1Two(first: seq<bv8>, second: seq<bv8>, digest: array<bv8>)
    requires digest.Length == 20
    modifies digest
    ensures digest[..] == Digest(first + second)
  {
    var ctx := new Context();
    ctx.Update(first);
    ctx.Update(second);
    assert [] + first + second == first + second;
    ctx.Final(digest);
  }

  // ---- The state between two bytes ----

  ghost function HashOf(s: seq<bv32>): Hash
    requires |s| == 5
  {
    Hash(s[0], s[1], s[2], s[3], s[4])
  }

  // n blocks of t are hashed and its last j bytes are waiting in the buffer.
  ghost predicate Holds(s: seq<bv32>, b: seq<bv8>, t: seq<bv8>, n: nat, j: int) {
    && |s| == 5 && |b| == BLOCK && 0 <= j < BLOCK && |t| == BLOCK * n + j
    && HashOf(s) == Absorb(Initial(), t, n) && b[..j] == t[BLOCK * n..]
  }

  lemma HoldsBounds(s: seq<bv32>, b: seq<bv8>, t: seq<bv8>, n: nat, j: int)
    requires Holds(s, b, t, n, j)
    ensures |s| == 5 && |b| == BLOCK && 0 <= j < BLOCK && |t| == BLOCK * n + j
    ensures HashOf(s) == Absorb(Initial(), t, n)
  {
  }

  // A byte more waits in the buffer, or makes it a block to be hashed.
  lemma HoldsPut(s: seq<bv32>, b: seq<bv8>, t: seq<bv8>, n: nat, j: nat, x: bv8)
    requires Holds(s, b, t, n, j)
    ensures j < BLOCK - 1 ==> Holds(s, b[j := x], t + [x], n, j + 1)
    ensures j == BLOCK - 1 ==> forall s': seq<bv32> ::
      |s'| == 5 && HashOf(s') == Compress(HashOf(s), b[j := x]) ==> Holds(s', b[j := x], t + [x], n + 1, 0)
  {
    hide Absorb, Compress, HashOf, Initial;
    var t', b' := t + [x], b[j := x];
    AbsorbPrefix(Initial(), t, [x], n);
    assert b'[..j + 1] == b[..j] + [x];
    assert t'[BLOCK * n..] == t[BLOCK * n..] + [x];
    if j == BLOCK - 1 {
      BlockFull(t', n, b');
      assert b'[..0] == [];
    }
  }

  // The bytes since the last block make up a block.
  lemma BlockFull(t: seq<bv8>, n: nat, b: seq<bv8>)
    requires |t| == BLOCK * n + BLOCK && |b| == BLOCK && b[..BLOCK] == t[BLOCK * n..]
    ensures Absorb(Initial(), t, n + 1) == Compress(Absorb(Initial(), t, n), b) && t[BLOCK * (n + 1)..] == []
  {
    hide Compress, Initial;
    assert t[BLOCK * n..BLOCK * (n + 1)] == t[BLOCK * n..] && b == b[..BLOCK];
  }

  lemma {:induction false} AbsorbPrefix(h: Hash, m: seq<bv8>, x: seq<bv8>, n: nat)
    requires BLOCK * n <= |m|
    ensures Absorb(h, m + x, n) == Absorb(h, m, n)
    decreases n
  {
    hide Compress;
    if n > 0 {
      AbsorbPrefix(h, m, x, n - 1);
      assert (m + x)[BLOCK * (n - 1)..BLOCK * n] == m[BLOCK * (n - 1)..BLOCK * n];
    }
  }

  lemma CountSum(n: nat, k: nat)
    ensures (n % TWO64 + k) % TWO64 == (n + k) % TWO64
  {
  }

  lemma CountIs(n: nat)
    ensures (n % TWO64) % 64 == n % 64
  {
  }

  lemma CountMod(n: nat, k: nat)
    requires 0 <= n - BLOCK * k < BLOCK
    ensures (n % TWO64) % 64 == n - BLOCK * k
  {
    CountIs(n);
  }

  lemma BlockCount(n: nat, k: nat)
    requires n % BLOCK == 0 && 0 <= n - BLOCK * k < BLOCK
    ensures n / BLOCK == k
  {
  }

  // The bit count wraps as the byte count does.
  lemma BitCount(n: nat)
    ensures (n % TWO64) * 8 % TWO64 == 8 * n % TWO64
  {
    var q, r := n / TWO64, n % TWO64;
    assert 8 * n == 8 * r + TWO64 * (8 * q);
    Multiples(8 * r, 8 * q);
  }

  lemma {:induction false} Multiples(x: nat, k: nat)
    ensures (x + TWO64 * k) % TWO64 == x % TWO64
  {
    if k > 0 {
      Multiples(x, k - 1);
      assert (x + TWO64 * k) == (x + TWO64 * (k - 1)) + TWO64;
    }
  }

  lemma PadSteps(n: nat, k: nat)
    requires k <= PadZeros(n)
    ensures (n + 1 + k) % 64 == 56 <==> k == PadZeros(n)
  {
  }

  lemma DigestByte(h: Hash, i: nat)
    requires i < 20
    ensures Bytes(h)[i] == ByteOf([h.a, h.b, h.c, h.d, h.e][i / 4], i % 4)
  {
    hide ByteOf, WordBytes;
    if i < 4 {
      assert Bytes(h)[i] == WordBytes(h.a)[i];
      WordByte(h.a, i);
    } else if i < 8 {
      assert Bytes(h)[i] == WordBytes(h.b)[i - 4];
      WordByte(h.b, i - 4);
    } else if i < 12 {
      assert Bytes(h)[i] == WordBytes(h.c)[i - 8];
      WordByte(h.c, i - 8);
    } else if i < 16 {
      assert Bytes(h)[i] == WordBytes(h.d)[i - 12];
      WordByte(h.d, i - 12);
    } else {
      assert Bytes(h)[i] == WordBytes(h.e)[i - 16];
      WordByte(h.e, i - 16);
    }
  }

  lemma WordByte(w: bv32, r: nat)
    requires r < 4
    ensures WordBytes(w)[r] == ByteOf(w, r)
  {
    hide ByteOf;
  }
}
