/**
 What single commands of mbf/mbf.c do: a line of words and variables is read as their values, `set`
 is a store that can be read back, comments do nothing and `halt` ends the program.
 */
module MbfLeaves {
  import opened MbfLang
  import opened MbfTable
  import opened MbfProof
  import opened MbfFits

  // ---- The store ----

  predicate Stored(vars: seq<Var>, name: string) {
    IndexOf(vars, name) < |vars| || |vars| < MAX_VARS
  }

  // Reading back gives the value that was stored last; a full store keeps what it has.
  lemma SetThenGet(vars: seq<Var>, name: string, value: string, other: string)
    ensures VarGet(VarSet(vars, name, value), other) ==
      if other == name && Stored(vars, name) then value else VarGet(vars, other)
  {
    var i := IndexOf(vars, name);
    if i < |vars| {
      Replaced(vars, i, name, value, other);
    } else if |vars| < MAX_VARS {
      Added(vars, name, value, other);
    }
  }

  lemma {:induction false} Replaced(vars: seq<Var>, i: nat, name: string, value: string, other: string)
    requires i < |vars| && vars[i].name == name
    ensures IndexOf(vars[i := Var(name, value)], other) == IndexOf(vars, other)
    decreases |vars|
  {
    var after := vars[i := Var(name, value)];
    if i > 0 && vars[0].name != other {
      assert after[1..] == vars[1..][i - 1 := Var(name, value)];
      Replaced(vars[1..], i - 1, name, value, other);
    } else if i == 0 {
      assert after[1..] == vars[1..];
    }
  }

  lemma {:induction false} Added(vars: seq<Var>, name: string, value: string, other: string)
    ensures var i := IndexOf(vars, other);
      IndexOf(vars + [Var(name, value)], other) == if i < |vars| || other == name then i else |vars| + 1
    decreases |vars|
  {
    if vars == [] {
      assert vars + [Var(name, value)] == [Var(name, value)] && [Var(name, value)][1..] == [];
    } else if vars[0].name != other {
      assert (vars + [Var(name, value)])[1..] == vars[1..] + [Var(name, value)];
      Added(vars[1..], name, value, other);
    }
  }

  // ---- A line of words and variables ----

  predicate WordOk(o: Operand) {
    match o
    case Plain(w) => w != "" && '$' !in w && forall i :: 0 <= i < |w| ==> !IsSpace(w[i])
    case Ref(v) => OperandOk(o)
  }

  predicate WordsOk(ops: seq<Operand>) {
    forall i :: 0 <= i < |ops| ==> WordOk(ops[i])
  }

  function PhraseText(ops: seq<Operand>): string
    decreases |ops|, 0
  {
    if ops == [] then "" else OperandText(ops[0]) + Further(ops[1..])
  }

  function Further(ops: seq<Operand>): string
    decreases |ops|, 1
  {
    if ops == [] then "" else " " + PhraseText(ops)
  }

  function Meaning(vars: seq<Var>, o: Operand): string {
    match o
    case Plain(w) => w
    case Ref(v) => VarGet(vars, v)
  }

  // The values in order; an unset variable leaves no word.
  function Meanings(vars: seq<Var>, ops: seq<Operand>): seq<string> {
    if ops == [] then []
    else (if Meaning(vars, ops[0]) == "" then [] else [Meaning(vars, ops[0])]) + Meanings(vars, ops[1..])
  }

  // How long the line is with all variables replaced.
  function Spelled(vars: seq<Var>, ops: seq<Operand>): nat {
    if ops == [] then 0 else |Meaning(vars, ops[0])| + (if |ops| > 1 then 1 else 0) + Spelled(vars, ops[1..])
  }

  function Take(ws: seq<string>, max: nat): seq<string> {
    if |ws| <= max then ws else ws[..max]
  }

  lemma TakeOne(w: string, ws: seq<string>, max: nat)
    requires max > 0
    ensures Take([w] + ws, max) == [w] + Take(ws, max - 1)
  {
  }

  lemma {:induction false} PhraseTokens(vars: seq<Var>, ops: seq<Operand>, room: nat, max: nat)
    requires WordsOk(ops) && Solid(vars) && Spelled(vars, ops) <= room
    ensures Tokens(Expand(PhraseText(ops), vars, room), max) == Take(Meanings(vars, ops), max)
    decreases |ops|, 1
  {
    hide Tokens, Expand, VarGet, Solid, Take, OperandOk;
    if max == 0 {
      NoneTaken(PhraseText(ops), vars, room, Meanings(vars, ops));
    } else if ops == [] {
      NothingExpands(vars, room);
      NoTokens(max);
      TakeNone(max);
    } else if room == 0 {
      assert |ops| == 1 && Meaning(vars, ops[0]) == "" && Meanings(vars, ops[1..]) == [];
      assert Meanings(vars, ops) == [];
      NoRoom(PhraseText(ops), vars);
      NoTokens(max);
      TakeNone(max);
    } else {
      FirstToken(vars, ops, room, max);
    }
  }

  lemma NoneTaken(s: string, vars: seq<Var>, room: nat, ws: seq<string>)
    ensures Tokens(Expand(s, vars, room), 0) == Take(ws, 0)
  {
    hide Expand;
  }

  lemma TakeNone(max: nat)
    ensures Take([], max) == []
  {
  }

  lemma {:induction false} FirstToken(vars: seq<Var>, ops: seq<Operand>, room: nat, max: nat)
    requires WordsOk(ops) && Solid(vars) && Spelled(vars, ops) <= room && ops != [] && room > 0 && max > 0
    ensures Tokens(Expand(PhraseText(ops), vars, room), max) == Take(Meanings(vars, ops), max)
    decreases |ops|, 0
  {
    hide Tokens, Expand, VarGet, Solid, Take, OperandOk, Clip, Further;
    var first, rest, value := ops[0], ops[1..], Meaning(vars, ops[0]);
    assert WordOk(first) && WordsOk(rest);
    FurtherStarts(rest);
    ClipWhole(value, room);
    match first {
      case Plain(w) => WordExpands(w, Further(rest), vars, room, max);
      case Ref(v) => RefExpands(v, Further(rest), vars, room, max);
    }
    hide Meaning, WordOk;
    FurtherTokens(vars, rest, room - |value|, if value == "" then max else max - 1);
    MeaningsStep(vars, ops, max);
  }

  lemma FurtherStarts(ops: seq<Operand>)
    ensures Further(ops) == "" || IsSpace(Further(ops)[0])
  {
  }

  lemma MeaningsStep(vars: seq<Var>, ops: seq<Operand>, max: nat)
    requires ops != [] && max > 0
    ensures var value, rest := Meaning(vars, ops[0]), Meanings(vars, ops[1..]);
      Take(Meanings(vars, ops), max) == if value == "" then Take(rest, max) else [value] + Take(rest, max - 1)
  {
    var value, rest := Meaning(vars, ops[0]), Meanings(vars, ops[1..]);
    TakeOne(value, rest, max);
    assert [] + rest == rest;
    hide Take;
  }

  lemma ClipWhole(s: string, n: nat)
    requires |s| <= n
    ensures Clip(s, n) == s
  {
  }

  lemma {:induction false} FurtherTokens(vars: seq<Var>, ops: seq<Operand>, room: nat, max: nat)
    requires WordsOk(ops) && Solid(vars) && Spelled(vars, ops) + (if ops == [] then 0 else 1) <= room
    ensures Tokens(Expand(Further(ops), vars, room), max) == Take(Meanings(vars, ops), max)
    decreases |ops|, 2
  {
    hide Tokens, Expand, Solid, Take, WordsOk, Meanings, Spelled;
    if ops == [] {
      PhraseTokens(vars, ops, room, max);
    } else {
      SpaceFirst(vars, PhraseText(ops), room, max);
      PhraseTokens(vars, ops, room - 1, max);
    }
  }

  lemma SpaceFirst(vars: seq<Var>, s: string, room: nat, max: nat)
    requires room > 0
    ensures Tokens(Expand(" " + s, vars, room), max) == Tokens(Expand(s, vars, room - 1), max)
  {
    hide Tokens, Expand;
    SpaceExpands(" " + s, vars, room, max);
    assert (" " + s)[1..] == s;
  }

  lemma {:induction false} PhraseEnds(ops: seq<Operand>)
    requires WordsOk(ops) && ops != []
    ensures var s := PhraseText(ops); s != "" && !IsSpace(s[0]) && !IsSpace(s[|s| - 1])
    decreases |ops|
  {
    assert WordOk(ops[0]);
    var text := OperandText(ops[0]);
    assert text != "" && !IsSpace(text[0]) && !IsSpace(text[|text| - 1]);
    if |ops| > 1 { PhraseEnds(ops[1..]); }
  }

  predicate StartsNote(s: string) {
    s != "" && s[0] == '#'
  }

  // A command made of words and variables is read as their values, up to sixteen of them.
  lemma PhraseReads(vars: seq<Var>, ops: seq<Operand>)
    requires WordsOk(ops) && ops != [] && !StartsNote(PhraseText(ops)) && Solid(vars)
    requires |PhraseText(ops)| <= LINE_MAX && Spelled(vars, ops) <= LINE_MAX
    ensures Parsed(PhraseText(ops), vars) == Take(Meanings(vars, ops), MAX_TOKENS)
  {
    hide Trim, Tokens, Expand, PhraseText, WordsOk, Spelled, Meanings, Take, Solid;
    PhraseEnds(ops);
    var s := PhraseText(ops);
    TrimSame(s);
    ClipWhole(s, LINE_MAX);
    PhraseTokens(vars, ops, LINE_MAX, MAX_TOKENS);
  }

  // ---- Single commands ----

  function SetPhrase(name: string, value: Operand): seq<Operand> {
    [Plain("set"), Plain(name), value]
  }

  // `set` stores a value that later reads give back, unless the value is empty: then it is passed on
  // as a command and the variable keeps what it had.
  lemma SetRuns(st: Store, name: string, value: Operand, other: string)
    requires WordOk(Plain(name)) && WordOk(value) && Solid(st.vars)
    requires |PhraseText(SetPhrase(name, value))| <= LINE_MAX && |Meaning(st.vars, value)| + |name| + 5 <= LINE_MAX
    ensures var v, st' := Meaning(st.vars, value), RunStmt(Leaf(PhraseText(SetPhrase(name, value))), st);
      && (v != "" ==> st'.trace == st.trace && st'.halted == st.halted)
      && (v != "" ==> VarGet(st'.vars, other) == if other == name && Stored(st.vars, name) then v else VarGet(st.vars, other))
      && (v == "" ==> st' == st.(trace := st.trace + [["set", name]], halted := false))
  {
    var ops, v := SetPhrase(name, value), Meaning(st.vars, value);
    assert SetShape(st.vars, name, value) by { SetRead(st.vars, name, value); }
    hide PhraseText, Meaning, VarSet, VarGet, Stored, Solid, Parsed;
    SetThenGet(st.vars, name, v, other);
  }

  ghost predicate SetShape(vars: seq<Var>, name: string, value: Operand) {
    var v := Meaning(vars, value);
    Parsed(PhraseText(SetPhrase(name, value)), vars) == if v == "" then ["set", name] else ["set", name, v]
  }

  lemma SetRead(vars: seq<Var>, name: string, value: Operand)
    requires WordOk(Plain(name)) && WordOk(value) && Solid(vars)
    requires |PhraseText(SetPhrase(name, value))| <= LINE_MAX && |Meaning(vars, value)| + |name| + 5 <= LINE_MAX
    ensures SetShape(vars, name, value)
  {
    var ops, v := SetPhrase(name, value), Meaning(vars, value);
    assert ops == [Plain("set")] + ([Plain(name)] + ([value] + []));
    OneMore(vars, value, []);
    OneMore(vars, Plain(name), [value] + []);
    OneMore(vars, Plain("set"), [Plain(name)] + ([value] + []));
    assert Meanings(vars, []) == [] && Spelled(vars, []) == 0;
    assert WordOk(Plain("set"));
    assert PhraseText(ops)[0] == "set"[0];
    hide PhraseText, Meaning, Meanings, Spelled, Solid, Parsed, WordOk;
    PhraseReads(vars, ops);
  }

  lemma OneMore(vars: seq<Var>, o: Operand, rest: seq<Operand>)
    ensures Meanings(vars, [o] + rest) == (if Meaning(vars, o) == "" then [] else [Meaning(vars, o)]) + Meanings(vars, rest)
    ensures Spelled(vars, [o] + rest) == |Meaning(vars, o)| + (if rest == [] then 0 else 1) + Spelled(vars, rest)
  {
    hide Meaning;
    assert ([o] + rest)[1..] == rest;
  }

  // Any other command is passed on with its words.
  lemma CommandRuns(st: Store, ops: seq<Operand>)
    requires WordsOk(ops) && ops != [] && !StartsNote(PhraseText(ops)) && Solid(st.vars)
    requires |PhraseText(ops)| <= LINE_MAX && Spelled(st.vars, ops) <= LINE_MAX
    ensures var words, st' := Take(Meanings(st.vars, ops), MAX_TOKENS), RunStmt(Leaf(PhraseText(ops)), st);
      words != [] && words[0] != "set" ==>
        st' == st.(trace := st.trace + [words], halted := words[0] == "halt" || words[0] == "reboot")
  {
    hide PhraseText, Meanings, Spelled, Solid, Parsed, WordsOk, Take;
    PhraseReads(st.vars, ops);
  }

  lemma {:induction false} BlanksSkipped(blanks: string, rest: string)
    requires (forall i :: 0 <= i < |blanks| ==> IsSpace(blanks[i])) && rest != "" && !IsSpace(rest[0])
    ensures SkipSpaces(blanks + rest) == rest
    decreases |blanks|
  {
    hide IsSpace;
    if blanks == "" {
      assert blanks + rest == rest;
    } else {
      assert (blanks + rest)[1..] == blanks[1..] + rest;
      BlanksSkipped(blanks[1..], rest);
    }
  }

  // A line whose first character behind white space is a number sign does nothing.
  lemma CommentRuns(st: Store, blanks: string, text: string)
    requires (forall i :: 0 <= i < |blanks| ==> IsSpace(blanks[i])) && |blanks| < LINE_MAX
    ensures RunStmt(Leaf(blanks + ("#" + text)), st) == st
  {
    var line := blanks + ("#" + text);
    var cut := Clip(line, LINE_MAX);
    var rest := cut[|blanks|..];
    assert rest != "" && rest[0] == '#' && cut == blanks + rest;
    BlanksSkipped(blanks, rest);
    DropKeepsFirst(rest);
    FirstStays(rest);
    hide SkipSpaces, DropSpaces, Tokens, Expand;
  }

  lemma {:induction false} FirstStays(s: string)
    requires s != "" && !IsSpace(s[0])
    ensures DropSpaces(s) != ""
  {
    if IsSpace(s[|s| - 1]) { FirstStays(s[..|s| - 1]); }
  }

  // Behind `halt` nothing runs.
  lemma HaltEnds(st: Store, rest: Block)
    requires !st.halted && Solid(st.vars)
    ensures Run(Then(Leaf("halt"), rest), st) == st.(trace := st.trace + [["halt"]], halted := true)
  {
    var ops := [Plain("halt")];
    assert ops[1..] == [] && PhraseText(ops) == "halt" + "" == "halt" && Meanings(st.vars, ops) == ["halt"];
    assert |"halt"| != |"set"|;
    assert Spelled(st.vars, ops) == 4;
    hide PhraseText, Meanings, Spelled, Solid, Parsed;
    CommandRuns(st, ops);
    hide RunStmt;
    var st' := RunStmt(Leaf("halt"), st);
    assert Run(rest, st') == st';
  }
}
