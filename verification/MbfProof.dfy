/**
 Why the line interpreter of mbf/mbf.c runs a printed program as its tree means it.
 */
module MbfProof {
  import opened MbfLang
  import opened MbfTable

  // ---- Reading single lines ----

  lemma {:induction false} SkipSpacesSame(s: string)
    requires s == "" || !IsSpace(s[0])
    ensures SkipSpaces(s) == s
  {
  }

  lemma TrimSame(s: string)
    requires s != "" && !IsSpace(s[0]) && !IsSpace(s[|s| - 1])
    ensures Trim(s) == s
  {
  }

  lemma {:induction false} BracesAppend(a: string, b: string, d: int)
    requires NoBraces(a)
    ensures Braces(a + b, d) == Braces(b, d)
  {
    if a == "" {
      assert a + b == b;
    } else {
      assert a[0] in a && (a + b)[1..] == a[1..] + b;
      forall c | c in a[1..] ensures c in a {}
      BracesAppend(a[1..], b, d);
    }
  }

  lemma PlainScan(text: string, d: int)
    requires NoBraces(text)
    ensures ScanLine(text, d) == Open(d)
  {
    var t := Trim(Clip(text, SCAN_MAX));
    forall c | c in t ensures c in text { assert c in Clip(text, SCAN_MAX); }
    BracesAppend(t, "", d);
    assert t + "" == t;
  }

  lemma LeafScan(text: string, d: int)
    requires LeafOk(text)
    ensures ScanLine(text, d) == Open(d)
  {
    PlainScan(text, d);
  }

  lemma FixedScans(d: int)
    ensures ScanLine("}", d) == (if d == 1 then Closed else Open(d - 1)) && ScanLine("else {", d) == Open(d + 1)
    ensures StartsElse("else {") && !StartsElse("}")
  {
    TrimSame("}");
    TrimSame("else {");
    var t := "}";
    assert t[1..] == "" && Braces(t[1..], d - 1) == Open(d - 1);
    assert Braces(t, d) == if d == 1 then Closed else Open(d - 1);
    BracesAppend("else ", "{", d);
    assert "else " + "{" == "else {" && "{"[1..] == "";
    assert "else {"[..4] == "else";
  }

  // What a header line is made of.
  lemma HeaderShape(name: string, equal: bool, rhs: Operand)
    requires HeaderOk(name, equal, rhs)
    ensures var h, body := Header(name, equal, rhs), HeaderStart(name, equal) + OperandText(rhs) + " ";
      && NoBraces(body) && h == body + "{" && |h| > 4 && h[0] == 'i' && h[|h| - 1] == '{'
      && Clip(h, SCAN_MAX) == h && Clip(h, LINE_MAX) == h && Trim(h) == h
  {
    var h, body := Header(name, equal, rhs), HeaderStart(name, equal) + OperandText(rhs) + " ";
    assert h == body + "{";
    assert NoBraces("if ") && NoBraces(" == ") && NoBraces(" != ") && NoBraces(" ");
    match rhs {
      case Plain(w) =>
      case Ref(v) => assert NoBraces("$" + v);
    }
    TrimSame(h);
  }

  lemma HeaderScan(name: string, equal: bool, rhs: Operand, d: int)
    requires HeaderOk(name, equal, rhs)
    ensures ScanLine(Header(name, equal, rhs), d) == Open(d + 1) && !StartsElse(Header(name, equal, rhs))
  {
    HeaderShape(name, equal, rhs);
    var body := HeaderStart(name, equal) + OperandText(rhs) + " ";
    BracesAppend(body, "{", d);
    assert "{"[1..] == "";
  }

  // ---- Finding the end of a block ----

  ghost predicate At(lines: seq<string>, i: nat, part: seq<string>) {
    i + |part| <= |lines| && lines[i..i + |part|] == part
  }

  lemma AtSplit(lines: seq<string>, i: nat, a: seq<string>, b: seq<string>)
    requires At(lines, i, a + b)
    ensures At(lines, i, a) && At(lines, i + |a|, b)
  {
    assert lines[i..i + |a|] == (a + b)[..|a|];
    assert lines[i + |a|..i + |a| + |b|] == (a + b)[|a|..];
  }

  lemma AtOne(lines: seq<string>, i: nat, line: string)
    requires At(lines, i, [line])
    ensures i < |lines| && lines[i] == line
  {
    assert lines[i..i + 1][0] == line;
  }

  // The lines of the two kinds of if statement, where they stand.
  lemma IfAt(lines: seq<string>, i: nat, s: Stmt)
    requires s.If? && At(lines, i, StmtLines(s))
    ensures var n := |Lines(s.thn)|;
      && |StmtLines(s)| == n + 2 && i + n + 1 < |lines|
      && lines[i] == Header(s.name, s.equal, s.rhs) && At(lines, i + 1, Lines(s.thn)) && lines[i + 1 + n] == "}"
  {
    hide Header, Lines;
    var head, thn := [Header(s.name, s.equal, s.rhs)], Lines(s.thn);
    AtSplit(lines, i, head + thn, ["}"]);
    AtSplit(lines, i, head, thn);
    AtOne(lines, i, head[0]);
    AtOne(lines, i + 1 + |thn|, "}");
  }

  lemma IfElseAt(lines: seq<string>, i: nat, s: Stmt)
    requires s.IfElse? && At(lines, i, StmtLines(s))
    ensures var n, m := |Lines(s.thn)|, |Lines(s.els)|;
      && |StmtLines(s)| == n + m + 4 && i + n + m + 3 < |lines|
      && lines[i] == Header(s.name, s.equal, s.rhs) && At(lines, i + 1, Lines(s.thn)) && lines[i + 1 + n] == "}"
      && lines[i + 2 + n] == "else {" && At(lines, i + 3 + n, Lines(s.els)) && lines[i + 3 + n + m] == "}"
  {
    hide Header, Lines;
    var head, thn, els := [Header(s.name, s.equal, s.rhs)], Lines(s.thn), Lines(s.els);
    AtSplit(lines, i, head + thn + ["}"] + ["else {"] + els, ["}"]);
    AtSplit(lines, i, head + thn + ["}"] + ["else {"], els);
    AtSplit(lines, i, head + thn + ["}"], ["else {"]);
    AtSplit(lines, i, head + thn, ["}"]);
    AtSplit(lines, i, head, thn);
    AtOne(lines, i, head[0]);
    AtOne(lines, i + 1 + |thn|, "}");
    AtOne(lines, i + 2 + |thn|, "else {");
    AtOne(lines, i + 3 + |thn| + |els|, "}");
  }

  lemma OpenLine(lines: seq<string>, i: nat, d: int, d': int)
    requires i < |lines| && ScanLine(lines[i], d) == Open(d')
    ensures CloseFrom(lines, i, d) == CloseFrom(lines, i + 1, d')
  {
    hide ScanLine;
  }

  lemma {:induction false} StmtScan(lines: seq<string>, i: nat, s: Stmt, d: int)
    requires StmtOk(s) && At(lines, i, StmtLines(s)) && d >= 1
    ensures CloseFrom(lines, i, d) == CloseFrom(lines, i + |StmtLines(s)|, d)
    decreases s
  {
    hide ScanLine, CloseFrom, Header, LeafOk, HeaderOk, At, Lines;
    match s {
      case Leaf(text) =>
        AtOne(lines, i, text);
        LeafScan(text, d);
        OpenLine(lines, i, d, d);
      case If(name, equal, rhs, thn) =>
        IfAt(lines, i, s);
        HeaderScan(name, equal, rhs, d);
        OpenLine(lines, i, d, d + 1);
        BlockScan(lines, i + 1, thn, d + 1);
        FixedScans(d + 1);
        OpenLine(lines, i + 1 + |Lines(thn)|, d + 1, d);
      case IfElse(name, equal, rhs, thn, els) =>
        IfElseAt(lines, i, s);
        HeaderScan(name, equal, rhs, d);
        OpenLine(lines, i, d, d + 1);
        BlockScan(lines, i + 1, thn, d + 1);
        FixedScans(d + 1);
        OpenLine(lines, i + 1 + |Lines(thn)|, d + 1, d);
        FixedScans(d);
        OpenLine(lines, i + 2 + |Lines(thn)|, d, d + 1);
        BlockScan(lines, i + 3 + |Lines(thn)|, els, d + 1);
        OpenLine(lines, i + 3 + |Lines(thn)| + |Lines(els)|, d + 1, d);
    }
  }

  lemma {:induction false} BlockScan(lines: seq<string>, i: nat, b: Block, d: int)
    requires BlockOk(b) && At(lines, i, Lines(b)) && d >= 1
    ensures CloseFrom(lines, i, d) == CloseFrom(lines, i + |Lines(b)|, d)
    decreases b
  {
    hide StmtLines, CloseFrom, StmtOk;
    match b {
      case End =>
      case Then(s, rest) =>
        AtSplit(lines, i, StmtLines(s), Lines(rest));
        StmtScan(lines, i, s, d);
        BlockScan(lines, i + |StmtLines(s)|, rest, d);
    }
  }

  // ---- Reading a header ----

  lemma {:induction false} WordEnds(w: string, rest: string)
    requires (forall i :: 0 <= i < |w| ==> !IsSpace(w[i])) && (rest == "" || IsSpace(rest[0]))
    ensures Word(w + rest) == w
  {
    if w == "" {
      assert w + rest == rest;
    } else {
      assert (w + rest)[1..] == w[1..] + rest;
      WordEnds(w[1..], rest);
    }
  }

  lemma TokensWord(w: string, rest: string, max: nat)
    requires w != "" && (forall i :: 0 <= i < |w| ==> !IsSpace(w[i])) && (rest == "" || IsSpace(rest[0])) && max > 0
    ensures Tokens(w + rest, max) == [w] + Tokens(rest, max - 1)
  {
    SkipSpacesSame(w + rest);
    WordEnds(w, rest);
    assert (w + rest)[|w|..] == rest;
  }

  lemma TokensSpace(s: string, max: nat)
    ensures Tokens(" " + s, max) == Tokens(s, max)
  {
    assert (" " + s)[1..] == s;
    assert SkipSpaces(" " + s) == SkipSpaces(s);
  }

  lemma ExpandChar(c: char, s: string, vars: seq<Var>, room: nat)
    requires c != '$' && room > 0
    ensures Expand([c] + s, vars, room) == [c] + Expand(s, vars, room - 1)
  {
    hide VarGet, Clip, Alnums;
    assert ([c] + s)[1..] == s;
  }

  lemma {:induction false} ExpandPlain(a: string, b: string, vars: seq<Var>, room: nat)
    requires '$' !in a && |a| <= room
    ensures Expand(a + b, vars, room) == a + Expand(b, vars, room - |a|)
    decreases |a|
  {
    hide Expand;
    if a == "" {
      assert a + b == b;
    } else {
      var c, rest := a[0], a[1..];
      assert a == [c] + rest;
      Assoc([c], rest, b);
      ExpandChar(c, rest + b, vars, room);
      ExpandPlain(rest, b, vars, room - 1);
      Assoc([c], rest, Expand(b, vars, room - |a|));
    }
  }

  lemma {:induction false} AlnumsWhole(v: string, rest: string, max: nat)
    requires (forall i :: 0 <= i < |v| ==> IsAlnum(v[i])) && |v| <= max && (rest == "" || !IsAlnum(rest[0]))
    ensures Alnums(v + rest, max) == v
    decreases |v|
  {
    if v == "" {
      assert v + rest == rest;
    } else {
      assert (v + rest)[1..] == v[1..] + rest;
      AlnumsWhole(v[1..], rest, max - 1);
    }
  }

  lemma ExpandRef(v: string, rest: string, vars: seq<Var>, room: nat)
    requires 0 < |v| <= VNAME_MAX && (forall i :: 0 <= i < |v| ==> IsAlnum(v[i])) && (rest == "" || !IsAlnum(rest[0])) && room > 0
    ensures var value := Clip(VarGet(vars, v), room);
      Expand("$" + v + rest, vars, room) == value + Expand(rest, vars, room - |value|)
  {
    hide VarGet, Clip, IsAlnum;
    var s := "$" + v + rest;
    assert s[1..] == v + rest && s[1 + |v|..] == rest;
    AlnumsWhole(v, rest, VNAME_MAX);
  }

  lemma Assoc(a: string, b: string, c: string)
    ensures (a + b) + c == a + (b + c)
  {
  }

  lemma StartThen(name: string, equal: bool, tail: string)
    ensures HeaderStart(name, equal) + tail == "if" + (" " + (name + (" " + (Op(equal) + (" " + tail)))))
    ensures |HeaderStart(name, equal)| == |name| + 7
  {
    var op := Op(equal);
    Assoc("if ", name + (" " + (op + " ")), tail);
    Assoc(name, " " + (op + " "), tail);
    Assoc(" ", op + " ", tail);
    Assoc(op, " ", tail);
    Assoc("if", " ", name + (" " + (op + (" " + tail))));
  }

  // The first three tokens of a header, whatever follows.
  lemma StartTokens(name: string, equal: bool, tail: string)
    requires PlainWord(name)
    ensures Tokens(HeaderStart(name, equal) + tail, MAX_TOKENS) == ["if", name, Op(equal)] + Tokens(tail, MAX_TOKENS - 3)
  {
    var op := Op(equal);
    StartThen(name, equal, tail);
    hide HeaderStart, Tokens;
    TokensWord("if", " " + (name + (" " + (op + (" " + tail)))), 16);
    TokensSpace(name + (" " + (op + (" " + tail))), 15);
    TokensWord(name, " " + (op + (" " + tail)), 15);
    TokensSpace(op + (" " + tail), 14);
    TokensWord(op, " " + tail, 14);
    TokensSpace(tail, 13);
    assert ["if"] + ([name] + ([op] + Tokens(tail, 13))) == ["if", name, op] + Tokens(tail, 13);
  }

  // Values are single words, as `set` stores tokens.
  ghost predicate Solid(vars: seq<Var>) {
    forall i :: 0 <= i < |vars| ==> SolidWord(vars[i].value)
  }

  ghost predicate SolidWord(s: string) {
    forall i :: 0 <= i < |s| ==> !IsSpace(s[i])
  }

  lemma ValueSolid(vars: seq<Var>, name: string)
    requires Solid(vars)
    ensures SolidWord(VarGet(vars, name))
  {
  }

  lemma BraceTail(vars: seq<Var>, room: nat)
    ensures var t := Expand(" {", vars, room);
      (t == "" || IsSpace(t[0])) && (room >= 2 ==> t == " {")
  {
    assert " {"[1..] == "{" && "{"[1..] == "";
    assert room >= 2 ==> Expand("{", vars, room - 1) == "{";
  }

  // The first token of what follows the operator is the operand's value.
  lemma TailTokens(vars: seq<Var>, name: string, rhs: Operand)
    requires Solid(vars) && OperandOk(rhs) && |name| + 7 + |OperandText(rhs)| + 2 <= SCAN_MAX
    ensures var t := Tokens(Expand(OperandText(rhs) + " {", vars, LINE_MAX - 7 - |name|), MAX_TOKENS - 3);
      t != [] && t[0] == OperandValue(vars, name, rhs)
  {
    var room := LINE_MAX - 7 - |name|;
    hide Tokens, Expand, VarGet, Clip;
    match rhs {
      case Plain(w) => PlainTail(vars, w, room);
      case Ref(v) => RefTail(vars, v, room);
    }
  }

  lemma PlainTail(vars: seq<Var>, w: string, room: nat)
    requires PlainWord(w) && |w| + 2 <= room
    ensures var t := Tokens(Expand(w + " {", vars, room), 13); t != [] && t[0] == w
  {
    hide Tokens, Expand;
    ExpandPlain(w, " {", vars, room);
    BraceTail(vars, room - |w|);
    TokensWord(w, " {", 13);
  }

  lemma RefTail(vars: seq<Var>, v: string, room: nat)
    requires Solid(vars) && OperandOk(Ref(v)) && room >= 2
    ensures var t, value := Tokens(Expand("$" + v + " {", vars, room), 13), VarGet(vars, v);
      t != [] && t[0] == if value == "" then "{" else Clip(value, room)
  {
    var value, cut := VarGet(vars, v), Clip(VarGet(vars, v), room);
    ValueSolid(vars, v);
    assert value == "" <==> cut == "";
    assert SolidWord(cut) && !IsAlnum(" {"[0]);
    hide Tokens, Expand, VarGet, Clip, Solid;
    ExpandRef(v, " {", vars, room);
    BraceTail(vars, room - |cut|);
    var tail := Expand(" {", vars, room - |cut|);
    if cut == "" {
      assert cut + tail == " {";
      BraceToken();
    } else {
      TokensWord(cut, tail, 13);
    }
  }

  lemma BraceToken()
    ensures Tokens(" {", 13) == ["{"] + Tokens("", 12)
  {
    var brace := "{";
    assert !IsSpace(brace[0]) && brace + "" == brace && " " + brace == " {";
    hide Tokens;
    TokensSpace(brace, 13);
    TokensWord(brace, "", 13);
  }

  lemma HeaderSplits(name: string, equal: bool, rhs: Operand)
    requires HeaderOk(name, equal, rhs)
    ensures Header(name, equal, rhs) == HeaderStart(name, equal) + (OperandText(rhs) + " {")
    ensures |HeaderStart(name, equal)| == |name| + 7 && |name| + 7 + |OperandText(rhs)| + 2 <= SCAN_MAX
    ensures PlainWord(name) && OperandOk(rhs)
  {
    hide PlainWord, OperandOk, HeaderStart, OperandText;
    StartThen(name, equal, "");
    Assoc(HeaderStart(name, equal), OperandText(rhs), " {");
    assert " {" == " " + "{";
  }

  // A trimmed line is expanded after the part that has no variables.
  lemma PartsParsed(s: string, start: string, rest: string, vars: seq<Var>)
    requires s == start + rest && s != "" && s[0] != '#' && Trim(Clip(s, LINE_MAX)) == s
    requires '$' !in start && |start| <= LINE_MAX
    ensures Parsed(s, vars) == Tokens(start + Expand(rest, vars, LINE_MAX - |start|), MAX_TOKENS)
  {
    hide Trim, Clip, Tokens, Expand;
    ExpandPlain(start, rest, vars, LINE_MAX);
  }

  lemma HeaderParsed(name: string, equal: bool, rhs: Operand, vars: seq<Var>)
    requires HeaderOk(name, equal, rhs)
    ensures var start := HeaderStart(name, equal);
      Parsed(Header(name, equal, rhs), vars) ==
        Tokens(start + Expand(OperandText(rhs) + " {", vars, LINE_MAX - |name| - 7), MAX_TOKENS)
    ensures |name| + 7 + |OperandText(rhs)| + 2 <= SCAN_MAX && PlainWord(name) && OperandOk(rhs)
  {
    hide HeaderOk, Trim, Clip, Tokens, Expand, Parsed, HeaderStart, OperandText, Header, PlainWord, OperandOk, NoBraces;
    var start, rest := HeaderStart(name, equal), OperandText(rhs) + " {";
    HeaderShape(name, equal, rhs);
    HeaderSplits(name, equal, rhs);
    NoDollar(name, equal);
    PartsParsed(Header(name, equal, rhs), start, rest, vars);
  }

  // A line whose tokens start like a header's is the test of its fourth token.
  lemma TokensTest(t: seq<string>, name: string, equal: bool, rhs: Operand, vars: seq<Var>)
    requires |t| >= 4 && t[0] == "if" && t[1] == name && t[2] == Op(equal) && t[3] == OperandValue(vars, name, rhs)
    ensures IsIf(t) && Holds(t, vars) == Test(vars, name, equal, rhs)
  {
    hide VarGet, OperandValue;
    OpDistinct();
  }

  // A header is read as the test it stands for.
  lemma HeaderReads(name: string, equal: bool, rhs: Operand, vars: seq<Var>)
    requires HeaderOk(name, equal, rhs) && Solid(vars)
    ensures var t := Parsed(Header(name, equal, rhs), vars);
      IsIf(t) && Holds(t, vars) == Test(vars, name, equal, rhs)
  {
    hide HeaderOk, Solid, Parsed, Tokens, Expand, HeaderStart, OperandText, OperandValue, OperandOk, Header,
      IsIf, Holds, Test, Op, PlainWord;
    HeaderParsed(name, equal, rhs, vars);
    var tail := Expand(OperandText(rhs) + " {", vars, LINE_MAX - |name| - 7);
    StartTokens(name, equal, tail);
    TailTokens(vars, name, rhs);
    var t := ["if", name, Op(equal)] + Tokens(tail, MAX_TOKENS - 3);
    TokensTest(t, name, equal, rhs, vars);
  }

  lemma OpDistinct()
    ensures Op(true) == "==" && Op(false) == "!=" && "==" != "!="
  {
    assert "=="[0] != "!="[0];
  }

  lemma NoDollar(name: string, equal: bool)
    requires PlainWord(name)
    ensures '$' !in HeaderStart(name, equal)
  {
    assert '$' !in "if " && '$' !in " == " && '$' !in " != ";
  }

  // ---- Reading a leaf ----

  // A leaf is never read as an if.
  lemma LeafReads(text: string, vars: seq<Var>)
    requires LeafOk(text)
    ensures !IsIf(Parsed(text, vars))
  {
    var p := Trim(Clip(text, LINE_MAX));
    if p != "" && p[0] != '#' {
      var w, rest := Word(p), p[|Word(p)|..];
      assert p == w + rest;
      TrimStarts(Clip(text, LINE_MAX));
      assert w != "";
      ExpandPlain(w, rest, vars, LINE_MAX);
      var t := Expand(rest, vars, LINE_MAX - |w|);
      SpaceKept(rest, vars, LINE_MAX - |w|);
      hide Expand, Tokens, Trim, Word;
      TokensWord(w, t, MAX_TOKENS);
    }
  }

  lemma TrimStarts(s: string)
    ensures Trim(s) != "" ==> !IsSpace(Trim(s)[0])
  {
    DropKeepsFirst(SkipSpaces(s));
  }

  lemma {:induction false} DropKeepsFirst(s: string)
    ensures DropSpaces(s) != "" ==> DropSpaces(s)[0] == s[0]
  {
    if s != "" && IsSpace(s[|s| - 1]) { DropKeepsFirst(s[..|s| - 1]); }
  }

  lemma SpaceKept(rest: string, vars: seq<Var>, room: nat)
    requires rest == "" || IsSpace(rest[0])
    ensures var t := Expand(rest, vars, room); t == "" || IsSpace(t[0])
  {
  }

  // ---- Table and store side by side ----

  lemma {:induction false} TokensParts(s: string, max: nat)
    ensures forall t :: t in Tokens(s, max) ==> SolidWord(t) && forall c :: c in t ==> c in s
    decreases max
  {
    var p := SkipSpaces(s);
    if max > 0 && p != "" {
      var w := Word(p);
      TokensParts(p[|w|..], max - 1);
      forall t | t in Tokens(s, max) ensures SolidWord(t) && forall c :: c in t ==> c in s {
        if t != w { assert t in Tokens(p[|w|..], max - 1); }
      }
    }
  }

  // Texts only: no terminator within a value.
  ghost predicate Texts(vars: seq<Var>) {
    forall i :: 0 <= i < |vars| ==> Text(vars[i].value)
  }

  lemma {:induction false} ExpandText(s: string, vars: seq<Var>, room: nat)
    requires Text(s) && Texts(vars)
    ensures Text(Expand(s, vars, room))
    decreases |s|
  {
    if s != "" && room > 0 {
      var name := Alnums(s[1..], VNAME_MAX);
      var value := Clip(VarGet(vars, name), room);
      if s[0] == '$' {
        ExpandText(s[1 + |name|..], vars, room - |value|);
      } else {
        ExpandText(s[1..], vars, room - 1);
      }
    }
  }

  lemma EntriesText(mem: seq<char>, n: nat)
    ensures Texts(Entries(mem, n))
  {
    forall i | 0 <= i < n ensures Text(Entries(mem, n)[i].value) { CStringText(mem, ENTRY_SIZE * i + NAME_SIZE); }
  }

  // The table reads as the store's variables, of which none has been spilled.
  ghost predicate Agrees(m: Machine, st: Store) {
    TableOk(m) && Vars(m) == st.vars && m.trace == st.trace && m.halted == st.halted && !st.spilled && Tidy(st.vars) && Solid(st.vars)
  }

  lemma ParsedParts(line: string, vars: seq<Var>)
    requires Text(line) && Texts(vars)
    ensures forall t :: t in Parsed(line, vars) ==> SolidWord(t) && Text(t)
  {
    var p := Trim(Clip(line, LINE_MAX));
    ExpandText(p, vars, LINE_MAX);
    TokensParts(Expand(p, vars, LINE_MAX), MAX_TOKENS);
    hide Expand, Trim, Tokens, SolidWord;
  }

  lemma SetSolid(vars: seq<Var>, name: string, value: string)
    requires Solid(vars) && SolidWord(value)
    ensures Solid(VarSet(vars, name, value))
  {
    hide SolidWord, IndexOf;
  }

  // A command on the table is the command on the store, unless it spills.
  lemma CommandAgrees(text: string, m: Machine, st: Store)
    requires Agrees(m, st) && LeafOk(text)
    requires !Command(Parsed(text, st.vars), st).spilled
    ensures Agrees(Execute(Parsed(text, Vars(m)), m), Command(Parsed(text, st.vars), st))
  {
    var toks := Parsed(text, st.vars);
    EntriesText(m.mem, m.count);
    ParsedParts(text, st.vars);
    hide Parsed, LeafOk, Solid, Tidy, VarSet, PutVar, Entries;
    if toks != [] && toks[0] == "set" && |toks| >= 3 {
      assert toks[1] in toks && toks[2] in toks;
      PutVarAgrees(m, toks[1], toks[2]);
      SetSolid(st.vars, toks[1], toks[2]);
    }
  }

  // What has been spilled stays spilled.
  lemma {:induction false} StmtSpills(s: Stmt, st: Store)
    ensures st.spilled ==> RunStmt(s, st).spilled
    decreases s
  {
    hide Test, Parsed, Spills, VarSet;
    match s {
      case Leaf(text) =>
      case If(name, equal, rhs, thn) => BlockSpills(thn, st);
      case IfElse(name, equal, rhs, thn, els) =>
        BlockSpills(thn, st);
        BlockSpills(els, st);
    }
  }

  lemma {:induction false} BlockSpills(b: Block, st: Store)
    ensures st.spilled ==> Run(b, st).spilled
    decreases b
  {
    hide RunStmt;
    match b {
      case End =>
      case Then(s, rest) =>
        if !st.halted {
          StmtSpills(s, st);
          BlockSpills(rest, RunStmt(s, st));
        }
    }
  }

  // ---- The interpreter agrees with the trees ----

  ghost predicate NoElseAt(lines: seq<string>, i: nat) {
    i < |lines| ==> !StartsElse(lines[i])
  }

  // Where the parts of a printed if statement are found.
  lemma IfParts(lines: seq<string>, i: nat, s: Stmt)
    requires s.If? && StmtOk(s) && At(lines, i, StmtLines(s)) && NoElseAt(lines, i + |StmtLines(s)|)
    ensures i < |lines| && PartsOf(lines, i) == (var e := i + 1 + |Lines(s.thn)|; Parts(e, -1, -1, e))
    ensures |StmtLines(s)| == |Lines(s.thn)| + 2
  {
    hide ScanLine, Header, HeaderOk, StartsElse, CloseFrom, Lines, BlockOk;
    IfAt(lines, i, s);
    HeaderScan(s.name, s.equal, s.rhs, 0);
    OpenLine(lines, i, 0, 1);
    BlockScan(lines, i + 1, s.thn, 1);
    FixedScans(1);
    CloseLine(lines, i + 1 + |Lines(s.thn)|, 1);
  }

  lemma CloseLine(lines: seq<string>, i: nat, d: int)
    requires i < |lines| && ScanLine(lines[i], d) == Closed
    ensures CloseFrom(lines, i, d) == i
  {
  }

  lemma IfElseParts(lines: seq<string>, i: nat, s: Stmt)
    requires s.IfElse? && StmtOk(s) && At(lines, i, StmtLines(s))
    ensures i < |lines| && PartsOf(lines, i) ==
      (var e, f := i + 1 + |Lines(s.thn)|, i + 3 + |Lines(s.thn)| + |Lines(s.els)|; Parts(e, e + 2, f, f))
    ensures |StmtLines(s)| == |Lines(s.thn)| + |Lines(s.els)| + 4
  {
    hide ScanLine, Header, HeaderOk, StartsElse, CloseFrom, Lines, BlockOk;
    IfElseAt(lines, i, s);
    HeaderScan(s.name, s.equal, s.rhs, 0);
    OpenLine(lines, i, 0, 1);
    BlockScan(lines, i + 1, s.thn, 1);
    FixedScans(1);
    CloseLine(lines, i + 1 + |Lines(s.thn)|, 1);
    FixedScans(0);
    OpenLine(lines, i + 2 + |Lines(s.thn)|, 0, 1);
    BlockScan(lines, i + 3 + |Lines(s.thn)|, s.els, 1);
    CloseLine(lines, i + 3 + |Lines(s.thn)| + |Lines(s.els)|, 1);
  }

  lemma {:induction false} StmtRuns(lines: seq<string>, i: nat, s: Stmt, m: Machine, st: Store)
    requires StmtOk(s) && At(lines, i, StmtLines(s)) && i < |lines|
    requires s.If? ==> NoElseAt(lines, i + |StmtLines(s)|)
    requires Agrees(m, st) && !RunStmt(s, st).spilled
    ensures var r := ExecLine(lines, i, m); Agrees(r.0, RunStmt(s, st)) && r.1 == i + |StmtLines(s)| - 1
    decreases s
  {
    hide Header, HeaderOk, LeafOk, Parsed, IsIf, Holds, Test, PartsOf, Lines, Solid, Tidy, Vars, Command, Execute, StartsElse, ExecRange, Run, CloseFrom, At, BlockOk;
    match s {
      case Leaf(text) =>
        AtOne(lines, i, text);
        LeafReads(text, st.vars);
        CommandAgrees(text, m, st);
      case If(name, equal, rhs, thn) =>
        IfParts(lines, i, s);
        IfAt(lines, i, s);
        HeaderReads(name, equal, rhs, st.vars);
        FixedScans(1);
        if Test(st.vars, name, equal, rhs) { BlockRuns(lines, i + 1, thn, m, st); }
      case IfElse(name, equal, rhs, thn, els) =>
        IfElseParts(lines, i, s);
        IfElseAt(lines, i, s);
        HeaderReads(name, equal, rhs, st.vars);
        FixedScans(1);
        if Test(st.vars, name, equal, rhs) {
          BlockRuns(lines, i + 1, thn, m, st);
        } else {
          BlockRuns(lines, i + 3 + |Lines(thn)|, els, m, st);
        }
    }
  }

  // The lines of a block, wherever they stand, do what the block means.
  lemma {:induction false} BlockRuns(lines: seq<string>, i: nat, b: Block, m: Machine, st: Store)
    requires BlockOk(b) && At(lines, i, Lines(b)) && NoElseAt(lines, i + |Lines(b)|)
    requires Agrees(m, st) && !Run(b, st).spilled
    ensures Agrees(ExecRange(lines, i, i + |Lines(b)|, m), Run(b, st))
    decreases b
  {
    hide StmtLines, StmtOk, ExecLine, RunStmt, Agrees, StartsElse;
    match b {
      case End =>
      case Then(s, rest) =>
        AtSplit(lines, i, StmtLines(s), Lines(rest));
        assert m.halted == st.halted by { AgreeOnHalt(m, st); }
        if !st.halted {
          NextLine(lines, i, s, rest);
          BlockSpills(rest, RunStmt(s, st));
          StmtRuns(lines, i, s, m, st);
          BlockRuns(lines, i + |StmtLines(s)|, rest, ExecLine(lines, i, m).0, RunStmt(s, st));
        }
    }
  }

  lemma AgreeOnHalt(m: Machine, st: Store)
    requires Agrees(m, st)
    ensures m.halted == st.halted
  {
  }

  // No else follows a statement that has none.
  lemma NextLine(lines: seq<string>, i: nat, s: Stmt, rest: Block)
    requires BlockOk(Then(s, rest)) && At(lines, i + |StmtLines(s)|, Lines(rest))
    requires NoElseAt(lines, i + |StmtLines(s)| + |Lines(rest)|)
    ensures s.If? ==> NoElseAt(lines, i + |StmtLines(s)|)
  {
    hide StartsElse, StmtLines, StmtOk, At;
    if rest.Then? {
      AtSplit(lines, i + |StmtLines(s)|, StmtLines(rest.first), Lines(rest.rest));
      FirstLine(lines, i + |StmtLines(s)|, rest.first);
    }
  }

  lemma FirstLine(lines: seq<string>, i: nat, s: Stmt)
    requires StmtOk(s) && At(lines, i, StmtLines(s))
    ensures i < |lines| && if s.Leaf? then lines[i] == s.text else !StartsElse(lines[i])
  {
    hide StartsElse, Header, HeaderOk, LeafOk, At, Lines, BlockOk;
    match s {
      case Leaf(text) => AtOne(lines, i, text);
      case If(name, equal, rhs, _) =>
        IfAt(lines, i, s);
        HeaderScan(name, equal, rhs, 0);
      case IfElse(name, equal, rhs, _, _) =>
        IfElseAt(lines, i, s);
        HeaderScan(name, equal, rhs, 0);
    }
  }

  // ---- When a comparison with a variable means what it says ----

  // With a value that fits the buffer, a comparison with a variable compares the two values exactly
  // when the right one is set, or the left one is and does not hold the brace that is then read.
  lemma RefTest(vars: seq<Var>, name: string, equal: bool, v: string)
    requires |name| + 7 + |VarGet(vars, v)| <= LINE_MAX
    ensures Test(vars, name, equal, Ref(v)) == ((VarGet(vars, name) == VarGet(vars, v)) == equal)
      <==> VarGet(vars, v) != "" || (VarGet(vars, name) != "" && VarGet(vars, name) != "{")
  {
    hide VarGet;
    var value := VarGet(vars, v);
    assert Clip(value, LINE_MAX - 7 - |name|) == value;
  }

  // Two unset variables compare as different.
  lemma UnsetVariablesDiffer()
    ensures VarGet([], "a") == VarGet([], "b") && !Test([], "a", true, Ref("b"))
  {
    assert "{" != "";
  }

  // A variable holding a brace, and one that is not set, compare as equal.
  lemma StoredBraceEqualsUnset()
    ensures var vars := [Var("a", "{")]; VarGet(vars, "a") != VarGet(vars, "b") && Test(vars, "a", true, Ref("b"))
  {
    var vars := [Var("a", "{")];
    assert "a"[0] != "b"[0] && vars[1..] == [];
    assert IndexOf(vars, "b") == 1 + IndexOf(vars[1..], "b");
    assert "{" != "";
  }

  // ---- Script text ----

  // The characters before the first one that ends a line.
  function UpToStop(s: string): (r: string)
    ensures |r| <= |s| && s[..|r|] == r
  {
    if s == "" || s[0] in "\r\n\0" then "" else [s[0]] + UpToStop(s[1..])
  }

  function UpToNul(s: string): (r: string)
    ensures |r| <= |s| && s[..|r|] == r
  {
    if s == "" || s[0] == '\0' then "" else [s[0]] + UpToNul(s[1..])
  }

  // The index of the first newline or terminator.
  function LineEnd(s: string): (e: nat)
    ensures e <= |s| && (e < |s| ==> s[e] in "\n\0") && forall i :: 0 <= i < e ==> s[i] !in "\n\0"
  {
    if s == "" || s[0] in "\n\0" then 0 else 1 + LineEnd(s[1..])
  }

  // The lines of a text of which n lines have begun.  The last line allowed takes all the rest.
  function SplitLines(s: string, n: nat): (ls: seq<string>)
    ensures |ls| > 0 && (n <= MAX_LINES ==> n + |ls| <= MAX_LINES + 1)
    decreases |s|
  {
    var e := LineEnd(s);
    if n >= MAX_LINES then [UpToNul(s)]
    else if e < |s| && s[e] == '\n' then [UpToStop(s)] + SplitLines(s[e + 1..], n + 1)
    else [UpToStop(s)]
  }

  predicate CleanLine(s: string) {
    forall i :: 0 <= i < |s| ==> s[i] !in "\r\n\0"
  }

  function Join(ls: seq<string>): string
    requires ls != []
  {
    if |ls| == 1 then ls[0] else ls[0] + ("\n" + Join(ls[1..]))
  }

  lemma {:induction false} CleanStart(a: string, b: string)
    requires CleanLine(a) && (b == "" || b[0] == '\n')
    ensures LineEnd(a + b) == |a| && UpToStop(a + b) == a
  {
    if a == "" {
      assert a + b == b;
    } else {
      assert (a + b)[1..] == a[1..] + b && (a + b)[0] == a[0];
      CleanStart(a[1..], b);
    }
  }

  lemma {:induction false} CleanWhole(a: string)
    requires CleanLine(a)
    ensures UpToNul(a) == a
  {
    if a != "" { CleanWhole(a[1..]); }
  }

  lemma JoinFirst(ls: seq<string>)
    requires |ls| > 1
    ensures Join(ls) == ls[0] + ("\n" + Join(ls[1..])) && ls == [ls[0]] + ls[1..]
  {
  }

  // A first line and the rest are split one after the other.
  lemma SplitFirst(a: string, rest: string, n: nat)
    requires CleanLine(a) && n < MAX_LINES
    ensures SplitLines(a + ("\n" + rest), n) == [a] + SplitLines(rest, n + 1)
  {
    var s := a + ("\n" + rest);
    CleanStart(a, "\n" + rest);
    hide LineEnd, UpToStop, CleanLine;
    assert s[|a|] == '\n' && s[|a| + 1..] == rest;
  }

  lemma SplitOne(a: string, n: nat)
    requires CleanLine(a)
    ensures SplitLines(a, n) == [a]
  {
    assert a + "" == a;
    CleanStart(a, "");
    CleanWhole(a);
  }

  // Splitting undoes joining, up to the number of lines there is room for.
  lemma {:induction false} SplitJoin(ls: seq<string>, n: nat)
    requires ls != [] && n + |ls| <= MAX_LINES + 1 && forall i :: 0 <= i < |ls| ==> CleanLine(ls[i])
    ensures SplitLines(Join(ls), n) == ls
    decreases |ls|
  {
    hide SplitLines, CleanLine;
    if |ls| == 1 {
      SplitOne(ls[0], n);
      assert ls == [ls[0]];
    } else {
      JoinFirst(ls);
      hide Join;
      SplitFirst(ls[0], Join(ls[1..]), n);
      SplitJoin(ls[1..], n + 1);
    }
  }

  // What mbf_run does with a script, whatever the table held before.
  function RunScript(script: string, mem: seq<char>, trace: seq<seq<string>>): Machine {
    var lines := SplitLines(script, 1);
    ExecRange(lines, 0, |lines|, Machine(mem, 0, trace, false))
  }

  function Fresh(trace: seq<seq<string>>): Store {
    Store([], trace, false, false)
  }

  lemma WholeAt(lines: seq<string>)
    ensures At(lines, 0, lines) && NoElseAt(lines, |lines|)
  {
  }

  lemma FreshAgrees(mem: seq<char>, trace: seq<seq<string>>)
    requires |mem| == TABLE_SIZE
    ensures Agrees(Machine(mem, 0, trace, false), Fresh(trace))
  {
  }

  // Running the text of a program does what the program means, if that spills nothing.
  lemma ScriptRuns(b: Block, mem: seq<char>, trace: seq<seq<string>>)
    requires BlockOk(b) && b != End && |Lines(b)| <= MAX_LINES && |mem| == TABLE_SIZE
    requires forall i :: 0 <= i < |Lines(b)| ==> CleanLine(Lines(b)[i])
    requires !Run(b, Fresh(trace)).spilled
    ensures Lines(b) != []
    ensures var m, st := RunScript(Join(Lines(b)), mem, trace), Run(b, Fresh(trace)); Vars(m) == st.vars && m.trace == st.trace && m.halted == st.halted
  {
    hide BlockOk, SplitLines, CleanLine, Run, ExecRange, Join, Solid, Tidy;
    SplitJoin(Lines(b), 1);
    WholeAt(Lines(b));
    FreshAgrees(mem, trace);
    hide Lines, At, NoElseAt;
    BlockRuns(Lines(b), 0, b, Machine(mem, 0, trace, false), Fresh(trace));
  }
}
