/**
 Programs of mbf/mbf.c that stay within the variable table: a condition on the text of the `set`
 commands, and a program outside it whose text does something else than its tree.
 */
module MbfFits {
  import opened MbfLang
  import opened MbfTable
  import opened MbfProof

  // ---- Words of an expanded line ----

  // Every token fits a value.
  ghost predicate Short(toks: seq<string>) {
    forall t :: t in toks ==> |t| < VALUE_SIZE
  }

  lemma SpaceDrops(c: char, s: string, max: nat)
    requires IsSpace(c)
    ensures Tokens([c] + s, max) == Tokens(s, max)
  {
    assert ([c] + s)[1..] == s;
    assert SkipSpaces([c] + s) == SkipSpaces(s);
  }

  // A leading space does not change the tokens of the expansion.
  lemma SpaceExpands(s: string, vars: seq<Var>, room: nat, max: nat)
    requires s != "" && IsSpace(s[0]) && room > 0
    ensures Tokens(Expand(s, vars, room), max) == Tokens(Expand(s[1..], vars, room - 1), max)
  {
    hide VarGet, Alnums, Clip, Tokens;
    SpaceDrops(s[0], Expand(s[1..], vars, room - 1), max);
  }

  // A word without variables is one token, whole or cut where the expansion ends.
  lemma WordExpands(w: string, rest: string, vars: seq<Var>, room: nat, max: nat)
    requires w != "" && '$' !in w && SolidWord(w) && (rest == "" || IsSpace(rest[0])) && room > 0 && max > 0
    ensures Tokens(Expand(w + rest, vars, room), max) ==
      if |w| <= room then [w] + Tokens(Expand(rest, vars, room - |w|), max - 1) else [w[..room]]
  {
    hide Expand, Tokens;
    if |w| <= room {
      ExpandPlain(w, rest, vars, room);
      SpaceKept(rest, vars, room - |w|);
      TokensWord(w, Expand(rest, vars, room - |w|), max);
    } else {
      var cut := w[..room];
      assert w + rest == cut + (w[room..] + rest);
      ExpandPlain(cut, w[room..] + rest, vars, room);
      NoRoom(w[room..] + rest, vars);
      assert cut + "" == cut;
      TokensWord(cut, "", max);
      NoTokens(max - 1);
    }
  }

  lemma NoRoom(s: string, vars: seq<Var>)
    ensures Expand(s, vars, 0) == ""
  {
  }

  lemma NoTokens(max: nat)
    ensures Tokens("", max) == []
  {
  }

  lemma CutSolid(vars: seq<Var>, v: string, room: nat)
    requires Solid(vars)
    ensures SolidWord(Clip(VarGet(vars, v), room))
  {
    hide VarGet, Solid;
    ValueSolid(vars, v);
  }

  // A variable's value is one token, or none.
  lemma RefExpands(v: string, rest: string, vars: seq<Var>, room: nat, max: nat)
    requires OperandOk(Ref(v)) && Solid(vars) && (rest == "" || IsSpace(rest[0])) && room > 0 && max > 0
    ensures var value := Clip(VarGet(vars, v), room); var t := Expand(rest, vars, room - |value|);
      Tokens(Expand("$" + v + rest, vars, room), max) == if value == "" then Tokens(t, max) else [value] + Tokens(t, max - 1)
  {
    hide Expand, Tokens, VarGet, Clip, Solid;
    var value := Clip(VarGet(vars, v), room);
    CutSolid(vars, v, room);
    ExpandRef(v, rest, vars, room);
    SpaceKept(rest, vars, room - |value|);
    var t := Expand(rest, vars, room - |value|);
    if value == "" {
      assert value + t == t;
    } else {
      TokensWord(value, t, max);
    }
  }

  lemma ValueShort(vars: seq<Var>, name: string)
    requires Tidy(vars)
    ensures |VarGet(vars, name)| < VALUE_SIZE
  {
  }

  // A line that starts with a word is that word and the rest.
  lemma WordSplits(s: string)
    requires s != "" && !IsSpace(s[0])
    ensures var w := Word(s); var rest := s[|w|..];
      w != "" && SolidWord(w) && s == w + rest && (rest == "" || IsSpace(rest[0])) && SkipSpaces(s) == s
  {
    var w := Word(s);
    assert s[..|w|] + s[|w|..] == s;
  }

  lemma FitSplits(s: string)
    requires WordsFit(s) && s != ""
    ensures if IsSpace(s[0]) then WordsFit(s[1..]) else ValueFits(Word(s)) && WordsFit(s[|Word(s)|..])
  {
    hide ValueFits, Word;
    if !IsSpace(s[0]) { assert SkipSpaces(s) == s; }
  }

  lemma NothingLeft(s: string, vars: seq<Var>, room: nat, max: nat)
    requires s == "" || room == 0 || max == 0
    ensures Tokens(Expand(s, vars, room), max) == []
  {
    hide VarGet, Alnums, Clip;
  }

  // Where the words fit, so do the tokens of the expansion.
  lemma {:induction false} WordsShort(s: string, vars: seq<Var>, room: nat, max: nat)
    requires WordsFit(s) && Tidy(vars) && Solid(vars)
    ensures Short(Tokens(Expand(s, vars, room), max))
    decreases |s|, 1
  {
    hide Expand, Tokens, WordsFit, Word, SkipSpaces, Solid, Tidy, VarGet, SolidWord, ValueFits, IsSpace;
    if s == "" || room == 0 || max == 0 {
      NothingLeft(s, vars, room, max);
    } else if IsSpace(s[0]) {
      FitSplits(s);
      SpaceExpands(s, vars, room, max);
      WordsShort(s[1..], vars, room - 1, max);
    } else {
      FitSplits(s);
      WordSplits(s);
      WordShort(Word(s), s[|Word(s)|..], vars, room, max);
    }
  }

  lemma {:induction false} WordShort(w: string, rest: string, vars: seq<Var>, room: nat, max: nat)
    requires w != "" && SolidWord(w) && (rest == "" || IsSpace(rest[0])) && room > 0 && max > 0
    requires ValueFits(w) && WordsFit(rest) && Tidy(vars) && Solid(vars)
    ensures Short(Tokens(Expand(w + rest, vars, room), max))
    decreases |w + rest|, 0
  {
    hide Expand, Tokens, WordsFit, Word, SkipSpaces, Solid, Tidy, VarGet, SolidWord, IsSpace, OperandOk;
    if '$' !in w {
      WordExpands(w, rest, vars, room, max);
      if |w| <= room { WordsShort(rest, vars, room - |w|, max - 1); }
    } else {
      var v := w[1..];
      assert w == "$" + v;
      RefExpands(v, rest, vars, room, max);
      ValueShort(vars, v);
      var left := room - |Clip(VarGet(vars, v), room)|;
      WordsShort(rest, vars, left, max);
      WordsShort(rest, vars, left, max - 1);
    }
  }

  // The tokens after `set`: a name that fits, and words that do.
  lemma {:induction false} NameShort(s: string, vars: seq<Var>, room: nat, max: nat)
    requires NameFits(s) && Tidy(vars) && Solid(vars)
    ensures var t := Tokens(Expand(s, vars, room), max); Short(t) && (t != [] ==> |t[0]| < NAME_SIZE)
    decreases |s|
  {
    hide Expand, Tokens, WordsFit, Word, SkipSpaces, Solid, Tidy, SolidWord, NameFits, IsSpace;
    if s == "" || room == 0 || max == 0 {
      NothingLeft(s, vars, room, max);
    } else if IsSpace(s[0]) {
      NameSplits(s);
      SpaceExpands(s, vars, room, max);
      NameShort(s[1..], vars, room - 1, max);
    } else {
      NameSplits(s);
      WordSplits(s);
      var w, rest := Word(s), s[|Word(s)|..];
      WordExpands(w, rest, vars, room, max);
      if |w| <= room { WordsShort(rest, vars, room - |w|, max - 1); }
    }
  }

  lemma NameSplits(s: string)
    requires NameFits(s) && s != ""
    ensures if IsSpace(s[0]) then NameFits(s[1..])
      else '$' !in Word(s) && |Word(s)| < NAME_SIZE && WordsFit(s[|Word(s)|..])
  {
    hide WordsFit, Word;
    if !IsSpace(s[0]) { assert SkipSpaces(s) == s; } else { assert SkipSpaces(s) == SkipSpaces(s[1..]); }
  }

  // ---- Programs that fit ----

  // A leaf's first token is its first word.
  lemma LeafTokens(text: string, vars: seq<Var>)
    requires LeafOk(text)
    ensures var p, t := Trim(Clip(text, LINE_MAX)), Parsed(text, vars);
      if p == "" || p[0] == '#' then t == []
      else var w := Word(p); w != "" && |w| <= LINE_MAX && t == [w] + Tokens(Expand(p[|w|..], vars, LINE_MAX - |w|), MAX_TOKENS - 1)
  {
    hide Expand, Tokens, Trim, Word, SolidWord, IsSpace;
    var p := Trim(Clip(text, LINE_MAX));
    if p != "" && p[0] != '#' {
      TrimStarts(Clip(text, LINE_MAX));
      WordSplits(p);
      var w := Word(p);
      WordExpands(w, p[|w|..], vars, LINE_MAX, MAX_TOKENS);
    }
  }

  // The tokens of a `set` that fits.
  lemma SetShort(text: string, vars: seq<Var>)
    requires LeafOk(text) && LeafFits(text) && Tidy(vars) && Solid(vars)
    ensures var t := Parsed(text, vars);
      |t| >= 3 && t[0] == "set" ==> |t[1]| < NAME_SIZE && |t[2]| < VALUE_SIZE
  {
    LeafTokens(text, vars);
    hide Parsed, Expand, Tokens, Trim, Clip, Word, Solid, Tidy, NameFits;
    var p, t := Trim(Clip(text, LINE_MAX)), Parsed(text, vars);
    if |t| >= 3 && t[0] == "set" {
      NameShort(p[3..], vars, LINE_MAX - 3, MAX_TOKENS - 1);
      var rest := t[1..];
      assert t[1] == rest[0] && t[2] == rest[1] && rest[1] in rest;
    }
  }

  lemma SetStays(vars: seq<Var>, name: string, value: string)
    requires Tidy(vars) && |name| < NAME_SIZE && |value| < VALUE_SIZE
    ensures !Spills(vars, name, value) && Tidy(VarSet(vars, name, value))
  {
  }

  lemma LeafStays(text: string, st: Store)
    requires LeafOk(text) && LeafFits(text) && Tidy(st.vars) && Solid(st.vars)
    ensures var r := Command(Parsed(text, st.vars), st); r.spilled == st.spilled && Tidy(r.vars)
  {
    hide Parsed, LeafOk, LeafFits, Solid, Tidy, VarSet, Spills;
    var t := Parsed(text, st.vars);
    SetShort(text, st.vars);
    if t != [] && t[0] == "set" && |t| >= 3 { SetStays(st.vars, t[1], t[2]); }
  }

  lemma CommandSolid(text: string, st: Store)
    requires Solid(st.vars)
    ensures Solid(Command(Parsed(text, st.vars), st).vars)
  {
    var toks := Parsed(text, st.vars);
    TokensParts(Expand(Trim(Clip(text, LINE_MAX)), st.vars, LINE_MAX), MAX_TOKENS);
    assert forall t :: t in toks ==> SolidWord(t);
    hide Parsed, Solid, VarSet, SolidWord;
    if toks != [] && toks[0] == "set" && |toks| >= 3 { SetSolid(st.vars, toks[1], toks[2]); }
  }

  lemma {:induction false} StmtStays(s: Stmt, st: Store)
    requires StmtOk(s) && StmtFits(s) && Tidy(st.vars) && Solid(st.vars)
    ensures var r := RunStmt(s, st); r.spilled == st.spilled && Tidy(r.vars) && Solid(r.vars)
    decreases s
  {
    hide Test, Parsed, Command, LeafOk, LeafFits, HeaderOk, Tidy, Solid;
    match s {
      case Leaf(text) =>
        LeafStays(text, st);
        CommandSolid(text, st);
      case If(_, _, _, thn) => BlockStays(thn, st);
      case IfElse(_, _, _, thn, els) =>
        BlockStays(thn, st);
        BlockStays(els, st);
    }
  }

  // Such a program never spills a name or a value.
  lemma {:induction false} BlockStays(b: Block, st: Store)
    requires BlockOk(b) && BlockFits(b) && Tidy(st.vars) && Solid(st.vars)
    ensures var r := Run(b, st); r.spilled == st.spilled && Tidy(r.vars) && Solid(r.vars)
    decreases b
  {
    hide RunStmt, StmtOk, StmtFits, Tidy, Solid;
    match b {
      case End =>
      case Then(s, rest) =>
        if !st.halted {
          StmtStays(s, st);
          BlockStays(rest, RunStmt(s, st));
        }
    }
  }

  // The text of a program that fits does what the program means.
  lemma FittingScriptRuns(b: Block, mem: seq<char>, trace: seq<seq<string>>)
    requires BlockOk(b) && BlockFits(b) && b != End && |Lines(b)| <= MAX_LINES && |mem| == TABLE_SIZE
    requires forall i :: 0 <= i < |Lines(b)| ==> CleanLine(Lines(b)[i])
    ensures Lines(b) != []
    ensures var m, st := RunScript(Join(Lines(b)), mem, trace), Run(b, Fresh(trace)); Vars(m) == st.vars && m.trace == st.trace && m.halted == st.halted
  {
    BlockStays(b, Fresh(trace));
    hide BlockOk, BlockFits, CleanLine;
    ScriptRuns(b, mem, trace);
  }

  // ---- A program that does not fit ----

  function TwoWords(a: string, b: string): string {
    a + (" " + b)
  }

  function ThreeWords(a: string, b: string, c: string): string {
    TwoWords(a, TwoWords(b, c))
  }

  // A line without variables, and without spaces at its ends, is split as it stands.
  lemma LineReads(s: string, vars: seq<Var>)
    requires s != "" && s[0] != '#' && '$' !in s && |s| <= LINE_MAX
    requires !IsSpace(s[0]) && !IsSpace(s[|s| - 1])
    ensures Trim(Clip(s, LINE_MAX)) == s && Parsed(s, vars) == Tokens(s, MAX_TOKENS)
  {
    hide Trim, Tokens, Expand, IsSpace;
    TrimSame(s);
    assert s + "" == s;
    ExpandPlain(s, "", vars, LINE_MAX);
    NothingExpands(vars, LINE_MAX - |s|);
  }

  lemma NothingExpands(vars: seq<Var>, room: nat)
    ensures Expand("", vars, room) == ""
  {
  }

  lemma LastToken(b: string, max: nat)
    requires PlainWord(b) && max > 1
    ensures Tokens(" " + b, max) == [b]
  {
    hide Tokens, IsSpace;
    TokensSpace(b, max);
    assert b + "" == b;
    TokensWord(b, "", max);
    NoTokens(max - 1);
  }

  lemma TwoRead(a: string, b: string, max: nat)
    requires PlainWord(a) && PlainWord(b) && max > 2
    ensures Tokens(TwoWords(a, b), max) == [a, b]
  {
    hide Tokens;
    LastToken(b, max - 1);
    TokensWord(a, " " + b, max);
  }

  // Lines of plain words are read word by word.
  lemma TwoParse(a: string, b: string, vars: seq<Var>)
    requires PlainWord(a) && PlainWord(b) && a[0] != '#' && |a| + |b| < LINE_MAX
    ensures Parsed(TwoWords(a, b), vars) == [a, b]
  {
    hide Parsed, Tokens, Trim;
    TwoRead(a, b, MAX_TOKENS);
    LineReads(TwoWords(a, b), vars);
  }

  lemma ThreeParse(a: string, b: string, c: string, vars: seq<Var>)
    requires PlainWord(a) && PlainWord(b) && PlainWord(c) && a[0] != '#' && |a| + |b| + |c| + 1 < LINE_MAX
    ensures Parsed(ThreeWords(a, b, c), vars) == [a, b, c]
  {
    hide Parsed, Tokens, Trim;
    var rest := TwoWords(b, c);
    TwoRead(b, c, 15);
    TokensSpace(rest, 15);
    TokensWord(a, " " + rest, 16);
    LineReads(ThreeWords(a, b, c), vars);
  }

  // A line of plain words is a leaf unless it starts with `if`.
  lemma WordsOk(a: string, rest: string)
    requires PlainWord(a) && a != "if" && rest != "" && !IsSpace(rest[|rest| - 1]) && |a| + |rest| < LINE_MAX
    requires NoBraces(rest) && CleanLine(a) && CleanLine(rest)
    ensures LeafOk(TwoWords(a, rest)) && CleanLine(TwoWords(a, rest))
  {
    hide Trim, Word;
    var s := TwoWords(a, rest);
    TrimSame(s);
    WordEnds(a, " " + rest);
  }

  // The second statement of the program below.
  function AskFor(x: string): Stmt {
    If("a", true, Plain(x), Then(Leaf(TwoWords("echo", "yes")), End))
  }

  // Sets one variable to x, then another one, and says yes if the first still is x.
  function Overlong(x: string): Block {
    Then(Leaf(ThreeWords("set", "a", x)), Then(Leaf(ThreeWords("set", "b", "y")), Then(AskFor(x), End)))
  }

  // A word too long for a value that still fits the header line.
  predicate LongWord(x: string) {
    PlainWord(x) && '\0' !in x && VALUE_SIZE + 2 <= |x| <= SCAN_MAX - 15
  }

  lemma Names()
    ensures PlainWord("set") && PlainWord("a") && PlainWord("b") && PlainWord("y") && PlainWord("echo") && PlainWord("yes")
    ensures "set"[0] != '#' && "echo"[0] != '#' && "set" != "if" && "echo" != "if" && "a" != "b" && "echo" != "set" && !Stops(["echo", "yes"])
    ensures CleanLine("set") && CleanLine("a") && CleanLine("b") && CleanLine("y") && CleanLine("echo") && CleanLine("yes")
  {
    assert "set"[0] != "if"[0] && "echo"[0] != "if"[0] && "a"[0] != "b"[0] && "echo"[0] != "set"[0];
    assert "echo"[0] != "halt"[0] && "echo"[0] != "reboot"[0];
  }

  lemma LongClean(x: string)
    requires LongWord(x)
    ensures CleanLine(x)
  {
  }

  lemma LongHeader(x: string)
    requires LongWord(x)
    ensures HeaderOk("a", true, Plain(x)) && CleanLine(Header("a", true, Plain(x))) && CleanLine("}")
  {
    assert Header("a", true, Plain(x)) == "if a == " + x + " {";
    assert CleanLine("if a == ") && CleanLine(" {");
  }

  lemma AskOk(x: string)
    requires LongWord(x)
    ensures StmtOk(AskFor(x)) && |StmtLines(AskFor(x))| == 3
    ensures forall i :: 0 <= i < 3 ==> CleanLine(StmtLines(AskFor(x))[i])
  {
    Names();
    WordsOk("echo", "yes");
    LongHeader(x);
    hide LeafOk, HeaderOk, CleanLine, Header, TwoWords;
    var echo := Leaf(TwoWords("echo", "yes"));
    assert Lines(Then(echo, End)) == StmtLines(echo) + [] == [echo.text];
    assert StmtLines(AskFor(x)) == [Header("a", true, Plain(x)), echo.text, "}"];
    assert BlockOk(Then(echo, End));
  }

  lemma SetsOk(x: string)
    requires LongWord(x)
    ensures LeafOk(ThreeWords("set", "a", x)) && LeafOk(ThreeWords("set", "b", "y"))
    ensures CleanLine(ThreeWords("set", "a", x)) && CleanLine(ThreeWords("set", "b", "y"))
  {
    Names();
    LongClean(x);
    WordsOk("set", TwoWords("a", x));
    WordsOk("set", TwoWords("b", "y"));
  }

  lemma OverlongOk(x: string)
    requires LongWord(x)
    ensures BlockOk(Overlong(x)) && |Lines(Overlong(x))| == 5
    ensures forall i :: 0 <= i < 5 ==> CleanLine(Lines(Overlong(x))[i])
    ensures Lines(Overlong(x)) == [ThreeWords("set", "a", x), ThreeWords("set", "b", "y")] + StmtLines(AskFor(x))
  {
    hide LeafOk, CleanLine, ThreeWords, AskFor, StmtOk, LongWord, Lines, StmtLines, BlockOk;
    SetsOk(x);
    AskOk(x);
    var first, second := Leaf(ThreeWords("set", "a", x)), Leaf(ThreeWords("set", "b", "y"));
    BlocksOk(first, second, AskFor(x));
    LeafLines(first, Then(second, Then(AskFor(x), End)));
    LeafLines(second, Then(AskFor(x), End));
    LastLines(AskFor(x));
  }

  lemma LeafLines(leaf: Stmt, rest: Block)
    requires leaf.Leaf?
    ensures Lines(Then(leaf, rest)) == [leaf.text] + Lines(rest)
  {
    assert StmtLines(leaf) == [leaf.text];
  }

  lemma LastLines(s: Stmt)
    ensures Lines(Then(s, End)) == StmtLines(s)
  {
    hide StmtLines;
    assert Lines(Then(s, End)) == StmtLines(s) + [];
  }

  lemma BlocksOk(first: Stmt, second: Stmt, third: Stmt)
    requires first.Leaf? && LeafOk(first.text) && second.Leaf? && LeafOk(second.text) && StmtOk(third)
    ensures BlockOk(Then(first, Then(second, Then(third, End))))
  {
    hide LeafOk, StartsElse;
    assert BlockOk(Then(third, End));
    assert BlockOk(Then(second, Then(third, End)));
  }

  // The table after both sets: the second variable's name has cut the first one's value.
  lemma OverlongTable(x: string, mem: seq<char>, trace: seq<seq<string>>)
    requires LongWord(x) && |mem| == TABLE_SIZE
    ensures var m := PutVar(PutVar(Machine(mem, 0, trace, false), "a", x), "b", "y");
      m.count == 2 && m.trace == trace && !m.halted && Vars(m) == [Var("a", x[..VALUE_SIZE] + "b"), Var("b", "y")]
  {
    var named := Put(mem, 0, "a");
    PutReads(mem, 0, "a");
    var spilled := Put(named, NAME_SIZE, x);
    PutKeeps(named, NAME_SIZE, x, 0, NAME_SIZE);
    var m1 := Machine(spilled, 1, trace, false);
    assert Vars(m1)[0].name == "a" && "a"[0] != "b"[0];
    assert PutVar(Machine(mem, 0, trace, false), "a", x) == m1;
    var next := Put(spilled, ENTRY_SIZE, "b");
    var r := Put(next, ENTRY_SIZE + NAME_SIZE, "y");
    assert PutVar(m1, "b", "y") == Machine(r, 2, trace, false);
    NextNameCutsValue(named, 1, x, "b", "y");
    PutReads(spilled, ENTRY_SIZE, "b");
    PutReads(next, ENTRY_SIZE + NAME_SIZE, "y");
    PutKeeps(next, ENTRY_SIZE + NAME_SIZE, "y", ENTRY_SIZE, NAME_SIZE);
    PutKeeps(spilled, ENTRY_SIZE, "b", 0, NAME_SIZE);
    PutKeeps(next, ENTRY_SIZE + NAME_SIZE, "y", 0, NAME_SIZE);
  }

  lemma SetMeans(name: string, value: string, st: Store)
    requires PlainWord(name) && PlainWord(value) && |name| + |value| < 300
    ensures var st' := st.(vars := VarSet(st.vars, name, value), spilled := st.spilled || Spills(st.vars, name, value));
      RunStmt(Leaf(ThreeWords("set", name, value)), st) == st'
  {
    Names();
    ThreeParse("set", name, value, st.vars);
    hide Parsed, ThreeWords, VarSet, Spills;
  }

  lemma SetExecutes(name: string, value: string, lines: seq<string>, i: nat, m: Machine)
    requires PlainWord(name) && PlainWord(value) && |name| + |value| < 300
    requires i < |lines| && lines[i] == ThreeWords("set", name, value)
    ensures ExecLine(lines, i, m) == (PutVar(m, name, value), i)
  {
    Names();
    ThreeParse("set", name, value, Vars(m));
    hide Parsed, ThreeWords, PutVar, Vars, PartsOf;
    assert "set"[0] != "if"[0];
  }

  lemma AskMeans(x: string, st: Store)
    requires Test(st.vars, "a", true, Plain(x)) && !st.halted
    ensures RunStmt(AskFor(x), st) == st.(trace := st.trace + [["echo", "yes"]])
  {
    Names();
    TwoParse("echo", "yes", st.vars);
    hide Parsed, TwoWords, Test;
    var echo := Leaf(TwoWords("echo", "yes"));
    assert Run(Then(echo, End), st) == RunStmt(echo, st);
  }

  lemma ThreeRun(first: Stmt, second: Stmt, third: Stmt, st: Store)
    requires !st.halted && !RunStmt(first, st).halted && !RunStmt(second, RunStmt(first, st)).halted
    ensures Run(Then(first, Then(second, Then(third, End))), st) == RunStmt(third, RunStmt(second, RunStmt(first, st)))
  {
    hide RunStmt;
    var st2 := RunStmt(second, RunStmt(first, st));
    assert Run(Then(third, End), st2) == RunStmt(third, st2);
    assert Run(Then(second, Then(third, End)), RunStmt(first, st)) == Run(Then(third, End), st2);
  }

  lemma SetTwice(x: string)
    requires |x| >= VALUE_SIZE
    ensures Spills([], "a", x) && VarSet([], "a", x) == [Var("a", x)]
    ensures VarSet([Var("a", x)], "b", "y") == [Var("a", x), Var("b", "y")]
  {
    assert "a"[0] != "b"[0];
    var one := [Var("a", x)];
    assert IndexOf(one, "b") == 1 + IndexOf(one[1..], "b") == 1;
  }

  lemma OverlongMeans(x: string, trace: seq<seq<string>>)
    requires LongWord(x)
    ensures Run(Overlong(x), Fresh(trace)).trace == trace + [["echo", "yes"]]
  {
    Names();
    SetTwice(x);
    var st1 := Store([Var("a", x)], trace, false, true);
    SetMeans("a", x, Fresh(trace));
    SetMeans("b", "y", st1);
    hide ThreeWords, AskFor, RunStmt, VarSet, Spills, LongWord, PlainWord, CleanLine, IndexOf;
    var st2 := RunStmt(Leaf(ThreeWords("set", "b", "y")), st1);
    assert st2.vars == [Var("a", x), Var("b", "y")] && st2.trace == trace;
    FirstIs(x, st2.vars);
    AskMeans(x, st2);
    ThreeRun(Leaf(ThreeWords("set", "a", x)), Leaf(ThreeWords("set", "b", "y")), AskFor(x), Fresh(trace));
  }

  lemma FirstIs(x: string, vars: seq<Var>)
    requires vars != [] && vars[0] == Var("a", x)
    ensures Test(vars, "a", true, Plain(x)) && VarGet(vars, "a") == x
  {
  }

  lemma OverlongSkips(x: string, lines: seq<string>, m: Machine)
    requires LongWord(x) && Vars(m) == [Var("a", x[..VALUE_SIZE] + "b"), Var("b", "y")] && |lines| == 5
    requires At(lines, 2, StmtLines(AskFor(x)))
    ensures ExecLine(lines, 2, m) == (m, 4)
  {
    var s := AskFor(x);
    AskOk(x);
    IfParts(lines, 2, s);
    IfAt(lines, 2, s);
    var cut := x[..VALUE_SIZE] + "b";
    assert cut != x;
    VarsSolid(x, Vars(m));
    HeaderReads("a", true, Plain(x), Vars(m));
    hide Parsed, Header, PartsOf, IsIf, Holds, At, StmtOk, LongWord, Solid, TwoWords;
    FirstIs(cut, Vars(m));
  }

  lemma VarsSolid(x: string, vars: seq<Var>)
    requires LongWord(x) && vars == [Var("a", x[..VALUE_SIZE] + "b"), Var("b", "y")]
    ensures Solid(vars)
  {
  }

  lemma ThreeExecute(lines: seq<string>, m0: Machine, m1: Machine, m2: Machine)
    requires |lines| == 5 && ExecLine(lines, 0, m0) == (m1, 0) && ExecLine(lines, 1, m1) == (m2, 1)
    requires ExecLine(lines, 2, m2) == (m2, 4)
    requires !m0.halted && !m1.halted && !m2.halted
    ensures ExecRange(lines, 0, 5, m0) == m2
  {
    hide ExecLine;
    assert ExecRange(lines, 5, 5, m2) == m2;
    assert ExecRange(lines, 2, 5, m2) == m2;
    assert ExecRange(lines, 1, 5, m1) == m2;
  }

  lemma OverlongRuns(x: string, lines: seq<string>, mem: seq<char>, trace: seq<seq<string>>)
    requires LongWord(x) && |mem| == TABLE_SIZE && |lines| == 5
    requires lines == [ThreeWords("set", "a", x), ThreeWords("set", "b", "y")] + StmtLines(AskFor(x))
    ensures ExecRange(lines, 0, 5, Machine(mem, 0, trace, false)).trace == trace
  {
    hide ThreeWords, Vars, StmtLines, AskFor, ExecLine, ExecRange, CleanLine, Put, IndexOf;
    Names();
    OverlongTable(x, mem, trace);
    var m0 := Machine(mem, 0, trace, false);
    var m1 := PutVar(m0, "a", x);
    var m2 := PutVar(m1, "b", "y");
    SetExecutes("a", x, lines, 0, m0);
    SetExecutes("b", "y", lines, 1, m1);
    assert lines[2..2 + 3] == StmtLines(AskFor(x));
    OverlongSkips(x, lines, m2);
    ThreeExecute(lines, m0, m1, m2);
  }

  // The tree says yes; running its text does not.
  lemma OverlongDiffers(x: string, mem: seq<char>, trace: seq<seq<string>>)
    requires LongWord(x) && |mem| == TABLE_SIZE
    ensures var b := Overlong(x);
      && BlockOk(b) && 0 < |Lines(b)| <= MAX_LINES && (forall i :: 0 <= i < |Lines(b)| ==> CleanLine(Lines(b)[i]))
      && Run(b, Fresh(trace)).trace == trace + [["echo", "yes"]]
      && RunScript(Join(Lines(b)), mem, trace).trace == trace
  {
    hide Overlong, LongWord, CleanLine, SplitLines, Join, ThreeWords, StmtLines, ExecRange, Run, BlockOk, Lines;
    OverlongOk(x);
    OverlongMeans(x, trace);
    SplitJoin(Lines(Overlong(x)), 1);
    OverlongRuns(x, Lines(Overlong(x)), mem, trace);
  }
}
