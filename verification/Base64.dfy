/**
 The base64 tool (bin/base64.c): groups of three bytes as four characters on lines of 76, and
 the decoder that skips whatever is not in the alphabet (section 4 of RFC 4648).
 */
module Base64 {
  type byte = x: int | 0 <= x < 256

  // Table 1 of RFC 4648.
  function Alphabet(): (a: string)
    ensures |a| == 64
  {
    "ABCDEFGHIJKLMNOPQRSTUVWXYZ" + "abcdefghijklmnopqrstuvwxyz" + "0123456789" + "+/"
  }

  function Letter(v: nat): (c: char)
    requires v < 64
  {
    Alphabet()[v]
  }

  // b64dec
  function Value(c: char): (v: int)
    ensures -1 <= v < 64
  {
    if 'A' <= c <= 'Z' then (c - 'A') as int
    else if 'a' <= c <= 'z' then (c - 'a') as int + 26
    else if '0' <= c <= '9' then (c - '0') as int + 52
    else if c == '+' then 62
    else if c == '/' then 63
    else -1
  }

  // ---- The alphabet ----

  lemma LetterRanges(v: nat)
    requires v < 64
    ensures Letter(v) ==
      if v < 26 then 'A' + v as char else if v < 52 then 'a' + (v - 26) as char
      else if v < 62 then '0' + (v - 52) as char else if v == 62 then '+' else '/'
  {
    if v < 13 {
      assert v == 0 || v == 1 || v == 2 || v == 3 || v == 4 || v == 5 || v == 6 || v == 7
        || v == 8 || v == 9 || v == 10 || v == 11 || v == 12;
    } else if v < 26 {
      assert v == 13 || v == 14 || v == 15 || v == 16 || v == 17 || v == 18 || v == 19 || v == 20
        || v == 21 || v == 22 || v == 23 || v == 24 || v == 25;
    } else if v < 39 {
      assert v == 26 || v == 27 || v == 28 || v == 29 || v == 30 || v == 31 || v == 32 || v == 33
        || v == 34 || v == 35 || v == 36 || v == 37 || v == 38;
    } else if v < 52 {
      assert v == 39 || v == 40 || v == 41 || v == 42 || v == 43 || v == 44 || v == 45 || v == 46
        || v == 47 || v == 48 || v == 49 || v == 50 || v == 51;
    } else if v < 62 {
      assert v == 52 || v == 53 || v == 54 || v == 55 || v == 56 || v == 57 || v == 58 || v == 59
        || v == 60 || v == 61;
    } else {
      assert v == 62 || v == 63;
    }
  }

  // The decoder's tests find a letter's place in the alphabet, and no other character has one.
  lemma LetterValue(v: nat)
    requires v < 64
    ensures Value(Letter(v)) == v
  {
    LetterRanges(v);
    hide Letter;
  }

  lemma ValueLetter(c: char)
    ensures Value(c) >= 0 <==> c in Alphabet()
    ensures Value(c) >= 0 ==> Letter(Value(c)) == c
  {
    if Value(c) >= 0 {
      LetterRanges(Value(c));
      hide Letter;
    } else if c in Alphabet() {
      var v :| 0 <= v < 64 && Alphabet()[v] == c;
      LetterValue(v);
      assert false;
    }
  }

  // ---- Encoding ----

  function Byte(d: seq<byte>, i: nat): byte {
    if i < |d| then d[i] else 0
  }

  // The 24 bits of the group at i, zeros standing for what is past the end.
  function Group(d: seq<byte>, i: nat): (n: nat)
    ensures n < 0x100_0000
  {
    Byte(d, i) as nat * 0x1_0000 + Byte(d, i + 1) as nat * 0x100 + Byte(d, i + 2) as nat
  }

  function Quad(d: seq<byte>, i: nat): (q: string)
    ensures |q| == 4
  {
    var n := Group(d, i);
    [Letter(n / 0x4_0000), Letter(n / 0x1000 % 64),
     if i + 1 < |d| then Letter(n / 64 % 64) else '=',
     if i + 2 < |d| then Letter(n % 64) else '=']
  }

  // What is printed from the group at i on, with `col` characters already on the line.
  function Encoded(d: seq<byte>, i: nat, col: nat): string
    decreases |d| - i
  {
    if i >= |d| then "\n"
    else if col + 4 >= 76 then Quad(d, i) + ("\n" + Encoded(d, i + 3, 0))
    else Quad(d, i) + Encoded(d, i + 3, col + 4)
  }

  // ---- Decoding ----

  // What is printed for the rest of the input, `state` letters of a group being in `acc`.
  function Decoded(s: string, state: nat, acc: nat): seq<byte>
    requires state < 4
    decreases |s|
  {
    if s == "" then Tail(state, acc) + [10]
    else if Value(s[0]) < 0 then Decoded(s[1..], state, acc)
    else
      var acc' := acc * 64 + Value(s[0]);
      if state == 3 then Triple(acc') + Decoded(s[1..], 0, 0) else Decoded(s[1..], state + 1, acc')
  }

  function Triple(n: nat): (t: seq<byte>)
    ensures |t| == 3
  {
    [n / 0x1_0000 % 256, n / 0x100 % 256, n % 256]
  }

  // An unfinished group of two or three letters.
  function Tail(state: nat, acc: nat): seq<byte> {
    if state == 3 then [acc / 1024 % 256, acc / 4 % 256]
    else if state == 2 then [acc / 16 % 256]
    else []
  }

  // ---- One group ----

  lemma TakeLetter(c: char, rest: string, state: nat, acc: nat)
    requires Value(c) >= 0 && state < 3
    ensures Decoded([c] + rest, state, acc) == Decoded(rest, state + 1, acc * 64 + Value(c))
  {
    assert ([c] + rest)[1..] == rest;
  }

  lemma SkipOther(c: char, rest: string, state: nat, acc: nat)
    requires Value(c) < 0 && state < 4
    ensures Decoded([c] + rest, state, acc) == Decoded(rest, state, acc)
  {
    assert ([c] + rest)[1..] == rest;
  }

  lemma LastLetter(c: char, rest: string, acc: nat)
    requires Value(c) >= 0
    ensures Decoded([c] + rest, 3, acc) == Triple(acc * 64 + Value(c)) + Decoded(rest, 0, 0)
  {
    assert ([c] + rest)[1..] == rest;
  }

  lemma Split4(a: char, b: char, c: char, d: char, rest: string)
    ensures [a, b, c, d] + rest == [a] + ([b] + ([c] + ([d] + rest)))
  {
  }

  // What the letters of a group stand for, and what they add up to.
  lemma QuadValues(d: seq<byte>, i: nat)
    requires i < |d|
    ensures var q, n := Quad(d, i), Group(d, i);
      && Value(q[0]) == n / 0x4_0000 && Value(q[1]) == n / 0x1000 % 64
      && (if i + 1 < |d| then Value(q[2]) == n / 64 % 64 else q[2] == '=')
      && (if i + 2 < |d| then Value(q[3]) == n % 64 else q[3] == '=')
  {
    var n := Group(d, i);
    LetterValue(n / 0x4_0000);
    LetterValue(n / 0x1000 % 64);
    LetterValue(n / 64 % 64);
    LetterValue(n % 64);
    hide Letter, Value, Group;
  }

  lemma Digits(n: nat)
    requires n < 0x100_0000
    ensures n / 0x4_0000 * 64 + n / 0x1000 % 64 == n / 0x1000
    ensures n / 0x1000 * 64 + n / 64 % 64 == n / 64
    ensures n / 64 * 64 + n % 64 == n
  {
  }

  // The first two letters of any group.
  lemma TwoLetters(d: seq<byte>, i: nat, rest: string)
    requires i < |d|
    ensures var q, n := Quad(d, i), Group(d, i);
      Decoded(q + rest, 0, 0) == Decoded([q[2]] + ([q[3]] + rest), 2, n / 0x1000)
  {
    hide Decoded, Letter, Value, Quad, Group;
    var q, n := Quad(d, i), Group(d, i);
    QuadValues(d, i);
    assert n / 0x4_0000 * 64 + n / 0x1000 % 64 == n / 0x1000 by { Digits(n); }
    FirstTwo(q, rest, n / 0x4_0000, n / 0x1000 % 64);
  }

  lemma FirstTwo(q: string, rest: string, v0: nat, v1: nat)
    requires |q| == 4 && Value(q[0]) == v0 && Value(q[1]) == v1
    ensures Decoded(q + rest, 0, 0) == Decoded([q[2]] + ([q[3]] + rest), 2, v0 * 64 + v1)
  {
    hide Decoded, Value;
    var a, b, c, d := q[0], q[1], q[2], q[3];
    assert q == [a, b, c, d];
    Split4(a, b, c, d, rest);
    TakeLetter(a, [b] + ([c] + ([d] + rest)), 0, 0);
    TakeLetter(b, [c] + ([d] + rest), 1, v0);
  }

  lemma ThirdLetter(c: char, rest: string, n: nat)
    requires n < 0x100_0000 && Value(c) == n / 64 % 64
    ensures Decoded([c] + rest, 2, n / 0x1000) == Decoded(rest, 3, n / 64)
  {
    hide Decoded, Value;
    Digits(n);
    TakeLetter(c, rest, 2, n / 0x1000);
  }

  lemma FourthLetter(c: char, rest: string, n: nat)
    requires n < 0x100_0000 && Value(c) == n % 64
    ensures Decoded([c] + rest, 3, n / 64) == Triple(n) + Decoded(rest, 0, 0)
  {
    hide Decoded, Value, Triple;
    Digits(n);
    LastLetter(c, rest, n / 64);
  }

  // A whole group gives its three bytes and leaves nothing behind.
  lemma WholeGroup(d: seq<byte>, i: nat, rest: string)
    requires i + 2 < |d|
    ensures Decoded(Quad(d, i) + rest, 0, 0) == d[i..i + 3] + Decoded(rest, 0, 0)
  {
    GroupBytes(d, i);
    hide Decoded, Letter, Value, Quad, Group, Triple;
    var q, n := Quad(d, i), Group(d, i);
    QuadValues(d, i);
    TwoLetters(d, i, rest);
    ThirdLetter(q[2], [q[3]] + rest, n);
    FourthLetter(q[3], rest, n);
  }

  lemma ThreeDigits(a: nat, b: nat, c: nat)
    requires a < 256 && b < 256 && c < 256
    ensures var n := a * 0x1_0000 + b * 0x100 + c; n / 0x1_0000 % 256 == a && n / 0x100 % 256 == b && n % 256 == c
  {
    var n := a * 0x1_0000 + b * 0x100 + c;
    assert n == 0x100 * (a * 0x100 + b) + c;
    assert n / 0x1_0000 == a;
  }

  lemma GroupBytes(d: seq<byte>, i: nat)
    requires i + 2 < |d|
    ensures Triple(Group(d, i)) == d[i..i + 3]
  {
    ThreeDigits(d[i], d[i + 1], d[i + 2]);
  }

  // An unfinished group, at the end of the input, gives the bytes it has.
  lemma LastGroup(d: seq<byte>, i: nat, rest: string)
    requires i < |d| <= i + 2 && (rest == "\n" || rest == "\n\n")
    ensures Decoded(Quad(d, i) + rest, 0, 0) == d[i..] + [10]
  {
    TailBytes(d, i);
    hide Decoded, Letter, Value, Quad, Group, Tail;
    var q, n := Quad(d, i), Group(d, i);
    QuadValues(d, i);
    TwoLetters(d, i, rest);
    if i + 1 < |d| {
      ThirdLetter(q[2], [q[3]] + rest, n);
      SkipEqual(rest, 3, n / 64);
      Newlines(rest, 3, n / 64);
    } else {
      SkipEqual([q[3]] + rest, 2, n / 0x1000);
      SkipEqual(rest, 2, n / 0x1000);
      Newlines(rest, 2, n / 0x1000);
    }
  }

  lemma TailBytes(d: seq<byte>, i: nat)
    requires i < |d| <= i + 2
    ensures var n := Group(d, i);
      if i + 1 < |d| then Tail(3, n / 64) == d[i..] else Tail(2, n / 0x1000) == d[i..]
  {
    var n := Group(d, i);
    if i + 1 < |d| {
      assert n / 64 == d[i] as nat * 1024 + d[i + 1] as nat * 4;
      TailDigits(d[i], d[i + 1]);
      assert d[i..] == [d[i], d[i + 1]];
    } else {
      assert n / 0x1000 == d[i] as nat * 16;
      assert d[i..] == [d[i]];
    }
  }

  lemma TailDigits(a: byte, b: byte)
    ensures var n := a as nat * 1024 + b as nat * 4;
      n / 1024 % 256 == a && n / 4 % 256 == b
  {
    var n := a as nat * 1024 + b as nat * 4;
    assert n / 1024 == a as nat && n / 4 == 256 * a as nat + b as nat;
  }

  lemma SkipEqual(rest: string, state: nat, acc: nat)
    requires state < 4
    ensures Decoded(['='] + rest, state, acc) == Decoded(rest, state, acc)
  {
    SkipOther('=', rest, state, acc);
  }

  lemma Newlines(rest: string, state: nat, acc: nat)
    requires state < 4 && (rest == "\n" || rest == "\n\n")
    ensures Decoded(rest, state, acc) == Tail(state, acc) + [10]
  {
    assert "\n" == ['\n'] + "" && "\n\n" == ['\n'] + "\n";
    SkipOther('\n', "", state, acc);
    SkipOther('\n', "\n", state, acc);
  }

  // Decoding what was encoded gives the bytes back and a newline.
  lemma {:induction false} DecodeUndoesEncode(d: seq<byte>, i: nat, col: nat)
    requires i <= |d|
    ensures Decoded(Encoded(d, i, col), 0, 0) == d[i..] + [10]
    decreases |d| - i
  {
    hide Decoded, Quad;
    if i == |d| {
      Newlines("\n", 0, 0);
    } else if i + 2 < |d| {
      var full := col + 4 >= 76;
      var rest := Encoded(d, i + 3, if full then 0 else col + 4);
      WholeGroup(d, i, if full then "\n" + rest else rest);
      if full {
        assert "\n" + rest == ['\n'] + rest;
        SkipOther('\n', rest, 0, 0);
      }
      DecodeUndoesEncode(d, i + 3, if full then 0 else col + 4);
      assert d[i..] == d[i..i + 3] + d[i + 3..];
    } else {
      assert "\n" + "\n" == "\n\n";
      LastGroup(d, i, if col + 4 >= 76 then "\n\n" else "\n");
    }
  }

  // ---- What an encoding looks like ----

  predicate NoNewline(q: string) {
    '\n' !in q
  }

  lemma QuadPlain(d: seq<byte>, i: nat)
    requires i < |d|
    ensures NoNewline(Quad(d, i))
  {
    forall v: nat | v < 64 ensures Letter(v) != '\n' {
      LetterValue(v);
    }
    hide Letter, Group;
  }

  // Newlines stand after every 76 letters and at the end, and nowhere else.
  ghost predicate InLines(out: string, col: nat) {
    out != "" && forall j :: 0 <= j < |out| ==> (out[j] == '\n' <==> (col + j) % 77 == 76 || j == |out| - 1)
  }

  lemma QuadInLines(q: string, rest: string, col: nat)
    requires |q| == 4 && NoNewline(q) && col + 4 < 76 && InLines(rest, col + 4)
    ensures InLines(q + rest, col)
  {
    var out := q + rest;
    forall j | 0 <= j < |out| ensures out[j] == '\n' <==> (col + j) % 77 == 76 || j == |out| - 1 {
      if j < 4 {
        assert out[j] == q[j] && q[j] in q;
      } else {
        assert out[j] == rest[j - 4];
      }
    }
  }

  lemma LastQuadInLines(q: string, rest: string)
    requires |q| == 4 && NoNewline(q) && InLines(rest, 0)
    ensures InLines(q + ("\n" + rest), 72)
  {
    var out := q + ("\n" + rest);
    forall j | 0 <= j < |out| ensures out[j] == '\n' <==> (72 + j) % 77 == 76 || j == |out| - 1 {
      if j < 4 {
        assert out[j] == q[j] && q[j] in q;
      } else if j > 4 {
        assert out[j] == rest[j - 5] && (72 + j) % 77 == (j - 5) % 77;
      }
    }
  }

  lemma {:induction false} LinesOf76(d: seq<byte>, i: nat, col: nat)
    requires col < 76 && col % 4 == 0
    ensures InLines(Encoded(d, i, col), col)
    decreases |d| - i
  {
    hide Quad, InLines;
    if i >= |d| {
      OnlyNewline(col);
    } else {
      QuadPlain(d, i);
      if col + 4 >= 76 {
        LinesOf76(d, i + 3, 0);
        LastQuadInLines(Quad(d, i), Encoded(d, i + 3, 0));
      } else {
        LinesOf76(d, i + 3, col + 4);
        QuadInLines(Quad(d, i), Encoded(d, i + 3, col + 4), col);
      }
    }
  }

  lemma OnlyNewline(col: nat)
    ensures InLines("\n", col)
  {
  }

  // Section 10 of RFC 4648.
  lemma Examples()
    ensures Encoded([102], 0, 0) == "Zg==\n" && Encoded([102, 111], 0, 0) == "Zm8=\n"
    ensures Encoded([102, 111, 111, 98, 97, 114], 0, 0) == "Zm9vYmFy\n"
  {
    var d: seq<byte> := [102, 111, 111, 98, 97, 114];
    ExampleGroups();
    hide Quad;
    assert "Zg==" + "\n" == "Zg==\n" && "Zm8=" + "\n" == "Zm8=\n";
    assert Encoded(d, 6, 8) == "\n" && Encoded(d, 3, 4) == "YmFy" + "\n";
    assert "Zm9v" + ("YmFy" + "\n") == "Zm9vYmFy\n";
  }

  lemma ExampleGroups()
    ensures Quad([102, 111, 111, 98, 97, 114], 0) == "Zm9v" && Quad([102, 111, 111, 98, 97, 114], 3) == "YmFy"
    ensures Quad([102], 0) == "Zg==" && Quad([102, 111], 0) == "Zm8="
  {
    ExampleLetters();
    hide Letter;
    GroupIs([102, 111, 111, 98, 97, 114], 0, 0x666f6f);
    GroupIs([102, 111, 111, 98, 97, 114], 3, 0x626172);
    GroupIs([102, 111], 0, 0x666f00);
    GroupIs([102], 0, 0x660000);
    hide Group;
  }

  lemma GroupIs(d: seq<byte>, i: nat, n: nat)
    requires n == Byte(d, i) as nat * 0x1_0000 + Byte(d, i + 1) as nat * 0x100 + Byte(d, i + 2) as nat
    ensures Group(d, i) == n
  {
  }

  lemma ExampleLetters()
    ensures Letter(25) == 'Z' && Letter(38) == 'm' && Letter(61) == '9' && Letter(47) == 'v' && Letter(24) == 'Y'
    ensures Letter(5) == 'F' && Letter(50) == 'y' && Letter(32) == 'g' && Letter(60) == '8'
  {
  }

  // ---- The two loops of bin_base64 ----

  method Encode(d: seq<byte>) returns (out: string)
    ensures out == Encoded(d, 0, 0)
  {
    hide Quad;
    out := "";
    var col, i := 0, 0;
    while i < |d|
      invariant 0 <= i && col < 76 && out + Encoded(d, i, col) == Encoded(d, 0, 0)
    {
      var q := EncodeGroup(d, i);
      ghost var before := out;
      out := out + q;
      col := col + 4;
      if col >= 76 {
        Regroup(before, q, "\n" + Encoded(d, i + 3, 0));
        Regroup(out, "\n", Encoded(d, i + 3, 0));
        out := out + "\n";
        col := 0;
      } else {
        Regroup(before, q, Encoded(d, i + 3, col));
      }
      i := i + 3;
    }
    out := out + "\n";
  }

  method EncodeGroup(d: seq<byte>, i: nat) returns (q: string)
    requires i < |d|
    ensures q == Quad(d, i)
  {
    var n := d[i] as nat * 0x1_0000
      + (if i + 1 < |d| then d[i + 1] as nat * 0x100 else 0)
      + (if i + 2 < |d| then d[i + 2] as nat else 0);
    assert n == Group(d, i);
    hide Group, Letter;
    q := [Letter(n / 0x4_0000), Letter(n / 0x1000 % 64)];
    q := q + [if i + 1 < |d| then Letter(n / 64 % 64) else '='];
    q := q + [if i + 2 < |d| then Letter(n % 64) else '='];
  }

  method Decode(s: string) returns (out: seq<byte>)
    ensures out == Decoded(s, 0, 0)
  {
    hide Value, Triple, Tail;
    out := [];
    var state, acc := 0, 0;
    var i := 0;
    assert s[0..] == s;
    while i < |s|
      invariant 0 <= i <= |s| && 0 <= state < 4 && acc >= 0
      invariant out + Decoded(s[i..], state, acc) == Decoded(s, 0, 0)
    {
      assert s[i..][1..] == s[i + 1..];
      var v := Value(s[i]);
      i := i + 1;
      if v < 0 { continue; }
      acc := acc * 64 + v;
      state := state + 1;
      if state == 4 {
        RegroupBytes(out, Triple(acc), Decoded(s[i..], 0, 0));
        out := out + Triple(acc);
        state, acc := 0, 0;
      }
    }
    out := out + Tail(state, acc) + [10];
  }

  lemma Regroup(a: string, b: string, c: string)
    ensures (a + b) + c == a + (b + c)
  {
  }

  lemma RegroupBytes(a: seq<byte>, b: seq<byte>, c: seq<byte>)
    ensures (a + b) + c == a + (b + c)
  {
  }
}
