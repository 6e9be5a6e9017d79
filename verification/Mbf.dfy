/**
 The interpreter object of mbf/mbf.c: its variable table, a fixed piece of memory, and its loops,
 proved against the functions of MbfLang.  A command other than `set` and `if` is recorded, not carried out.
 */
module Mbf {
  import opened MbfLang
  import opened MbfProof

  class Interpreter {
    const table: array<char>
    var varCount: nat
    var trace: seq<seq<string>>
    var halted: bool

    constructor ()
      ensures Valid() && Vars(State()) == [] && trace == [] && !halted && fresh(table)
    {
      table := new char[TABLE_SIZE](_ => '\0');
      varCount, trace, halted := 0, [], false;
    }

    ghost predicate Valid()
      reads this
    {
      table.Length == TABLE_SIZE && varCount <= MAX_VARS
    }

    ghost function State(): Machine
      requires Valid()
      reads this, table
    {
      Machine(table[..], varCount, trace, halted)
    }

    // ---- Variables ----

    method SetVar(name: string, value: string)
      requires Valid()
      modifies table, this`varCount
      ensures Valid() && State() == PutVar(old(State()), name, value)
    {
      hide IndexOf, CString, Put;
      ghost var vars := Vars(State());
      var i := 0;
      while i < varCount
        invariant 0 <= i <= varCount == old(varCount) && table[..] == old(table[..])
        invariant forall j :: 0 <= j < i ==> vars[j].name != name
      {
        var entry := StringAt(ENTRY_SIZE * i);
        if entry == name {
          IndexIs(vars, name, i);
          CopyTo(ENTRY_SIZE * i + NAME_SIZE, value);
          return;
        }
        i := i + 1;
      }
      IndexIs(vars, name, varCount);
      if varCount < MAX_VARS {
        CopyTo(ENTRY_SIZE * varCount, name);
        CopyTo(ENTRY_SIZE * varCount + NAME_SIZE, value);
        varCount := varCount + 1;
      }
    }

    method GetVar(name: string) returns (value: string)
      requires Valid()
      ensures value == VarGet(Vars(State()), name)
    {
      hide IndexOf, CString;
      ghost var vars := Vars(State());
      var i := 0;
      while i < varCount
        invariant 0 <= i <= varCount && forall j :: 0 <= j < i ==> vars[j].name != name
      {
        var entry := StringAt(ENTRY_SIZE * i);
        if entry == name {
          IndexIs(vars, name, i);
          value := StringAt(ENTRY_SIZE * i + NAME_SIZE);
          return;
        }
        i := i + 1;
      }
      IndexIs(vars, name, varCount);
      return "";
    }

    method StringAt(p: nat) returns (s: string)
      requires Valid()
      ensures s == CString(table[..], p)
    {
      var q := p;
      s := "";
      while q < table.Length && table[q] != '\0'
        invariant p <= q && s + CString(table[..], q) == CString(table[..], p)
        decreases table.Length - q
      {
        Assoc(s, [table[q]], CString(table[..], q + 1));
        s, q := s + [table[q]], q + 1;
      }
    }

    // Copy a string and its terminator.  What would land behind the table is not modelled.
    method CopyTo(p: nat, s: string)
      requires Valid()
      modifies table
      ensures table[..] == Put(old(table[..]), p, s)
    {
      for i := 0 to |s|
        invariant forall k :: 0 <= k < TABLE_SIZE ==> table[k] == if p <= k < p + i then s[k - p] else old(table[k])
      {
        if p + i < table.Length { table[p + i] := s[i]; }
      }
      if p + |s| < table.Length { table[p + |s|] := '\0'; }
    }

    // ---- Reading a line ----

    method ExpandLine(s: string) returns (r: string)
      requires Valid()
      ensures r == Expand(s, Vars(State()), LINE_MAX)
    {
      ghost var vs := Vars(State());
      hide Expand, VarGet, Alnums;
      var out := new char[LINE_MAX + 1];
      var p: nat, o: nat := 0, 0;
      assert s[0..] == s;
      while p < |s| && o < LINE_MAX
        invariant 0 <= p <= |s| && o <= LINE_MAX && fresh(out) && Vars(State()) == vs
        invariant out[..o] + Expand(s[p..], vs, LINE_MAX - o) == Expand(s, vs, LINE_MAX)
        decreases |s| - p
      {
        p, o := ExpandOne(s, p, out, o, vs);
      }
      out[o] := '\0';
      ExpandEnds(s[p..], vs, LINE_MAX - o);
      r := out[..o];
    }

    // One character, or the value of one variable.
    method ExpandOne(s: string, p: nat, out: array<char>, o: nat, ghost vs: seq<Var>) returns (p': nat, o': nat)
      requires Valid() && Vars(State()) == vs && p < |s| && o < LINE_MAX < out.Length
      modifies out
      ensures p < p' <= |s| && o' <= LINE_MAX
      ensures out[..o'] + Expand(s[p'..], vs, LINE_MAX - o') == old(out[..o]) + Expand(s[p..], vs, LINE_MAX - o)
    {
      hide Expand, VarGet, Alnums, Clip;
      ghost var done, room := out[..o], LINE_MAX - o;
      ExpandStep(s, p, vs, room);
      if s[p] == '$' {
        var name := TakeName(s, p + 1);
        var value := GetVar(name);
        p' := p + 1 + |name|;
        o' := Append(out, o, value);
        assert out[..o'] == done + Clip(value, room);
        Assoc(done, Clip(value, room), Expand(s[p'..], vs, LINE_MAX - o'));
      } else {
        out[o] := s[p];
        p', o' := p + 1, o + 1;
        assert out[..o'] == done + [s[p]];
        Assoc(done, [s[p]], Expand(s[p'..], vs, LINE_MAX - o'));
      }
    }

    static method TakeName(s: string, from: nat) returns (name: string)
      requires from <= |s|
      ensures name == Alnums(s[from..], VNAME_MAX)
    {
      var p := from;
      name := "";
      while p < |s| && IsAlnum(s[p]) && |name| < VNAME_MAX
        invariant from <= p <= |s| && |name| <= VNAME_MAX
        invariant name + Alnums(s[p..], VNAME_MAX - |name|) == Alnums(s[from..], VNAME_MAX)
        decreases |s| - p
      {
        assert s[p..][1..] == s[p + 1..];
        Assoc(name, [s[p]], Alnums(s[p + 1..], VNAME_MAX - |name| - 1));
        name, p := name + [s[p]], p + 1;
      }
    }

    static method Append(out: array<char>, start: nat, value: string) returns (o: nat)
      requires start <= LINE_MAX < out.Length
      modifies out
      ensures o == start + |Clip(value, LINE_MAX - start)|
      ensures out[..start] == old(out[..start]) && out[start..o] == Clip(value, LINE_MAX - start)
    {
      o := start;
      var i := 0;
      while i < |value| && o < LINE_MAX
        invariant 0 <= i <= |value| && o == start + i <= LINE_MAX
        invariant out[..start] == old(out[..start]) && forall j :: 0 <= j < i ==> out[start..][j] == value[j]
      {
        out[o] := value[i];
        i, o := i + 1, o + 1;
      }
    }

    static method Tokenize(s: string, max: nat) returns (toks: seq<string>)
      ensures toks == Tokens(s, max)
    {
      toks := [];
      var p := 0;
      hide Tokens, Word, SkipSpaces;
      assert s[0..] == s;
      while p < |s| && |toks| < max
        invariant 0 <= p <= |s| && |toks| <= max
        invariant toks + Tokens(s[p..], max - |toks|) == Tokens(s, max)
        decreases |s| - p
      {
        ghost var from := p;
        p := PassSpaces(s, p);
        SpacesFirst(s[from..], max - |toks|);
        if p == |s| { break; }
        var start := p;
        p := PassWord(s, p);
        ghost var rest := Tokens(s[p..], max - |toks| - 1);
        assert s[start..][p - start..] == s[p..];
        SkipSpacesSame(s[start..]);
        TokensStep(s[start..], max - |toks|);
        assert (toks + [s[start..p]]) + rest == toks + ([s[start..p]] + rest);
        toks := toks + [s[start..p]];
        if p < |s| {
          SpaceFirst(s[p..], max - |toks|);
          assert s[p..][1..] == s[p + 1..];
          p := p + 1;
        }
      }
      TokensEnd(s[p..], max - |toks|);
    }

    static method PassSpaces(s: string, from: nat) returns (p: nat)
      requires from <= |s|
      ensures from <= p <= |s| && s[p..] == SkipSpaces(s[from..])
    {
      p := from;
      while p < |s| && IsSpace(s[p])
        invariant from <= p <= |s| && SkipSpaces(s[p..]) == SkipSpaces(s[from..])
      {
        assert s[p..][1..] == s[p + 1..];
        p := p + 1;
      }
    }

    static method PassWord(s: string, from: nat) returns (p: nat)
      requires from <= |s|
      ensures from <= p <= |s| && s[from..p] == Word(s[from..]) && (p < |s| ==> IsSpace(s[p]))
    {
      p := from;
      assert s[from..p] == "";
      while p < |s| && !IsSpace(s[p])
        invariant from <= p <= |s| && s[from..p] + Word(s[p..]) == Word(s[from..])
      {
        assert s[p..][1..] == s[p + 1..] && s[from..p + 1] == s[from..p] + [s[p]];
        Assoc(s[from..p], [s[p]], Word(s[p + 1..]));
        p := p + 1;
      }
    }

    static method TrimLine(s: string) returns (r: string)
      ensures r == Trim(s)
    {
      hide DropSpaces, SkipSpaces;
      var b := PassSpaces(s, 0);
      var e := |s|;
      TrimFrom(s, b);
      while e > b + 1 && IsSpace(s[e - 1])
        invariant b <= e <= |s| && (e == b ==> b == |s|)
        invariant DropSpaces(s[b..e]) == Trim(s)
      {
        DropLast(s, b, e);
        e := e - 1;
      }
      DropEnds(s, b, e);
      r := s[b..e];
    }

    // ---- Blocks ----

    static method ScanBraces(line: string, depth: int) returns (closed: bool, d: int)
      ensures ScanLine(line, depth) == if closed then Closed else Open(d)
    {
      var t := TrimLine(Clip(line, SCAN_MAX));
      var q := 0;
      closed, d := false, depth;
      assert t[0..] == t;
      while q < |t|
        invariant 0 <= q <= |t| && !closed && Braces(t[q..], d) == Braces(t, depth)
      {
        assert t[q..][1..] == t[q + 1..];
        if t[q] == '{' {
          d := d + 1;
        } else if t[q] == '}' {
          d := d - 1;
          if d == 0 { return true, 0; }
        }
        q := q + 1;
      }
    }

    static method FindClose(lines: seq<string>, from: nat) returns (e: int)
      ensures e == CloseFrom(lines, from, 0)
    {
      var i, depth := from, 0;
      hide ScanLine;
      while i < |lines|
        invariant from <= i && CloseFrom(lines, i, depth) == CloseFrom(lines, from, 0)
      {
        var closed;
        closed, depth := ScanBraces(lines[i], depth);
        if closed { return i; }
        i := i + 1;
      }
      return -1;
    }

    static method FindParts(lines: seq<string>, ip: nat) returns (b: Parts)
      requires ip < |lines|
      ensures b == PartsOf(lines, ip)
    {
      hide CloseFrom, StartsElse;
      var thenEnd := FindClose(lines, ip);
      if thenEnd < 0 { return Parts(-1, -1, -1, ip); }
      if thenEnd + 1 < |lines| {
        var te := TrimLine(Clip(lines[thenEnd + 1], SCAN_MAX));
        ElseTest(lines[thenEnd + 1]);
        if |te| >= 4 && te[0] == 'e' && te[1] == 'l' && te[2] == 's' && te[3] == 'e' {
          var elseEnd := FindClose(lines, thenEnd + 1);
          return Parts(thenEnd, thenEnd + 2, elseEnd, if elseEnd >= 0 then elseEnd else thenEnd);
        }
      }
      return Parts(thenEnd, -1, -1, thenEnd);
    }

    // ---- Execution ----

    method ExecuteLine(lines: seq<string>, ip: nat) returns (next: nat)
      requires Valid() && ip < |lines|
      modifies this`varCount, this`trace, this`halted, table
      ensures Valid() && next < |lines| && (State(), next) == ExecLine(lines, ip, old(State()))
      decreases |lines| - ip, 0
    {
      hide Expand, Tokens, Trim, PartsOf, ExecRange, PutVar, VarGet, Vars;
      ghost var vs := Vars(State());
      var p := TrimLine(Clip(lines[ip], LINE_MAX));
      if p == "" || p[0] == '#' { return ip; }
      var x := ExpandLine(p);
      var toks := Tokenize(x, MAX_TOKENS);
      assert toks == Parsed(lines[ip], vs);
      hide Parsed;
      if toks == [] { return ip; }
      if toks[0] == "set" && |toks| >= 3 {
        SetVar(toks[1], toks[2]);
        return ip;
      }
      if toks[0] != "if" || |toks| < 4 || (toks[2] != "==" && toks[2] != "!=") {
        trace, halted := trace + [toks], toks[0] == "halt" || toks[0] == "reboot";
        return ip;
      }
      var lhs := GetVar(toks[1]);
      var cond := if toks[2] == "==" then lhs == toks[3] else lhs != toks[3];
      var b := FindParts(lines, ip);
      if cond {
        ExecuteRange(lines, ip + 1, if b.thenEnd >= 0 then b.thenEnd else |lines|);
      } else if b.elseStart >= 0 && b.elseEnd >= 0 {
        ExecuteRange(lines, b.elseStart, b.elseEnd);
      }
      return b.next;
    }

    // The two inner loops over a block's lines.  The loop ends when the machine has been stopped.
    method ExecuteRange(lines: seq<string>, lo: nat, hi: nat)
      requires Valid() && hi <= |lines|
      modifies this`varCount, this`trace, this`halted, table
      ensures Valid() && State() == ExecRange(lines, lo, hi, old(State()))
      decreases |lines| - lo, 1
    {
      hide ExecLine;
      var ip := lo;
      while ip < hi && !halted
        invariant lo <= ip && Valid() && ExecRange(lines, ip, hi, State()) == ExecRange(lines, lo, hi, old(State()))
        decreases |lines| - ip
      {
        ip := ExecuteLine(lines, ip);
        ip := ip + 1;
      }
    }

    // mbf_run; `granted` says whether kmalloc had room for a copy of the script.  The state is the one
    // at the end, where the call returns unless the machine has been stopped.
    method RunText(script: string, granted: bool) returns (r: int)
      requires Valid() && !halted
      modifies this`varCount, this`trace, this`halted, table
      ensures Valid()
      ensures script == "" || !granted ==> r == -1 && State() == old(State())
      ensures script != "" && granted ==> r == 0 && State() == RunScript(script, old(table[..]), old(trace))
    {
      if script == "" || !granted { return -1; }
      var buf := new char[|script| + 1](i requires 0 <= i <= |script| => if i < |script| then script[i] else '\0');
      assert buf[..] == script + "\0";
      CutStarts(buf[..], script);
      var lines := Cut(buf, script);
      varCount := 0;
      hide ExecRange, SplitLines;
      ExecuteRange(lines, 0, |lines|);
      return 0;
    }

    // Cut the copied text into lines, in place.
    static method Cut(buf: array<char>, ghost script: string) returns (lines: seq<string>)
      requires CutTo(buf[..], script, 0, 0) && buf.Length == |script| + 1
      modifies buf
      ensures lines == SplitLines(script, 1)
    {
      hide CutTo, LineDone, SplitLines, Splits;
      var p: nat, start: nat := 0, 0;
      lines := [];
      SplitsNone(script);
      while buf[p] != '\0' && |lines| + 1 < MAX_LINES
        invariant start <= p <= |script| < buf.Length && |lines| + 1 <= MAX_LINES && (|lines| + 1 == MAX_LINES ==> p == start)
        invariant CutTo(buf[..], script, start, p)
        invariant Splits(script, lines, start)
        decreases |script| - p
      {
        var ended := CutOne(buf, start, p, script);
        if ended {
          var line := EndedLine(buf, start, p, |lines| + 1, script);
          SplitsNext(script, lines, start, p + 1, line);
          lines, start := lines + [line], p + 1;
        }
        p := p + 1;
      }
      var line := LastLine(buf, start, p, |lines| + 1, script);
      SplitsAll(script, lines, start, line);
      lines := lines + [line];
    }

    // Overwrite the character at p if it ends a line or is a return.
    static method CutOne(buf: array<char>, start: nat, p: nat, ghost script: string) returns (ended: bool)
      requires CutTo(buf[..], script, start, p) && p < buf.Length && buf[p] != '\0'
      modifies buf
      ensures p < |script| && CutTo(buf[..], script, if ended then p + 1 else start, p + 1)
      ensures ended ==> LineDone(buf[..], script, start, p)
    {
      ended := buf[p] == '\n';
      if ended || buf[p] == '\r' { buf[p] := '\0'; }
    }

    static method EndedLine(buf: array<char>, start: nat, p: nat, n: nat, ghost script: string) returns (line: string)
      requires LineDone(buf[..], script, start, p) && p < |script| && n < MAX_LINES && |script| < buf.Length
      requires buf[buf.Length - 1] == '\0'
      ensures SplitLines(script[start..], n) == [line] + SplitLines(script[p + 1..], n + 1)
    {
      line := ReadLine(buf, start);
      DoneReads(buf[..], script, start, p, n);
    }

    static method LastLine(buf: array<char>, start: nat, p: nat, n: nat, ghost script: string) returns (line: string)
      requires CutTo(buf[..], script, start, p) && n <= MAX_LINES && (n == MAX_LINES ==> p == start)
      requires n < MAX_LINES ==> p < buf.Length && buf[p] == '\0'
      ensures SplitLines(script[start..], n) == [line]
    {
      line := ReadLine(buf, start);
      LastReads(buf[..], script, start, p, n);
    }

    // The C string at an offset.
    static method ReadLine(buf: array<char>, start: nat) returns (line: string)
      requires start < buf.Length && buf[buf.Length - 1] == '\0'
      ensures line == UpToNul(buf[start..])
    {
      var p := start;
      line := "";
      while buf[p] != '\0'
        invariant start <= p < buf.Length && line + UpToNul(buf[p..]) == UpToNul(buf[start..])
        decreases buf.Length - p
      {
        assert buf[p..][1..] == buf[p + 1..];
        Assoc(line, [buf[p]], UpToNul(buf[p + 1..]));
        line, p := line + [buf[p]], p + 1;
      }
    }
  }

  // ---- Steps of the loops ----

  lemma {:induction false} IndexIs(vars: seq<Var>, name: string, i: nat)
    requires i <= |vars| && (forall j :: 0 <= j < i ==> vars[j].name != name) && (i < |vars| ==> vars[i].name == name)
    ensures IndexOf(vars, name) == i
    decreases i
  {
    if i > 0 { IndexIs(vars[1..], name, i - 1); }
  }

  lemma ExpandStep(s: string, p: nat, vars: seq<Var>, room: nat)
    requires p < |s| && room > 0
    ensures Expand(s[p..], vars, room) ==
      if s[p] == '$' then
        var name := Alnums(s[p + 1..], VNAME_MAX);
        var value := Clip(VarGet(vars, name), room);
        value + Expand(s[p + 1 + |name|..], vars, room - |value|)
      else [s[p]] + Expand(s[p + 1..], vars, room - 1)
  {
    hide VarGet, Clip, Alnums;
    assert s[p..][1..] == s[p + 1..];
    var name := Alnums(s[p + 1..], VNAME_MAX);
    assert s[p..][1 + |name|..] == s[p + 1 + |name|..];
  }

  lemma ExpandEnds(s: string, vars: seq<Var>, room: nat)
    requires s == "" || room == 0
    ensures Expand(s, vars, room) == ""
  {
  }

  lemma SpacesFirst(s: string, max: nat)
    ensures Tokens(SkipSpaces(s), max) == Tokens(s, max)
  {
    SkipSpacesSame(SkipSpaces(s));
  }

  lemma SpaceFirst(s: string, max: nat)
    requires s != "" && IsSpace(s[0])
    ensures Tokens(s[1..], max) == Tokens(s, max)
  {
    assert SkipSpaces(s) == SkipSpaces(s[1..]);
  }

  lemma TokensStep(s: string, max: nat)
    requires s != "" && SkipSpaces(s) == s && max > 0
    ensures Tokens(s, max) == [Word(s)] + Tokens(s[|Word(s)|..], max - 1)
  {
  }

  lemma TokensEnd(s: string, max: nat)
    requires s == "" || max == 0
    ensures Tokens(s, max) == []
  {
  }

  lemma TrimFrom(s: string, b: nat)
    requires b <= |s| && s[b..] == SkipSpaces(s[0..])
    ensures DropSpaces(s[b..|s|]) == Trim(s) && (b < |s| ==> !IsSpace(s[b]))
  {
    hide DropSpaces, SkipSpaces, IsSpace;
    assert s[0..] == s && s[b..|s|] == s[b..];
    var rest := s[b..];
    assert b < |s| ==> rest[0] == s[b];
  }

  lemma DropLast(s: string, b: nat, e: nat)
    requires b < e <= |s| && IsSpace(s[e - 1])
    ensures DropSpaces(s[b..e]) == DropSpaces(s[b..e - 1])
  {
    hide IsSpace;
    var part := s[b..e];
    assert part[|part| - 1] == s[e - 1] && part[..|part| - 1] == s[b..e - 1];
  }

  lemma DropEnds(s: string, b: nat, e: nat)
    requires b <= e <= |s| && (b < e ==> !IsSpace(s[e - 1]) || (e == b + 1 && !IsSpace(s[b])))
    ensures DropSpaces(s[b..e]) == s[b..e]
  {
    hide IsSpace;
    var part := s[b..e];
    assert part != "" ==> part[|part| - 1] == s[e - 1];
  }

  lemma ElseTest(line: string)
    ensures var t := Trim(Clip(line, SCAN_MAX));
      StartsElse(line) <==> |t| >= 4 && t[0] == 'e' && t[1] == 'l' && t[2] == 's' && t[3] == 'e'
  {
    hide Trim, Clip;
    var t := Trim(Clip(line, SCAN_MAX));
    if |t| >= 4 { assert t[..4] == [t[0], t[1], t[2], t[3]] && "else" == ['e', 'l', 's', 'e']; }
  }

  // The line from `start` has been gone through up to p: its returns are terminators now.
  ghost predicate CutTo(buf: string, script: string, start: nat, p: nat) {
    && start <= p <= |script| && |buf| == |script| + 1 && buf[|script|] == '\0'
    && (forall x :: p <= x < |script| ==> buf[x] == script[x])
    && forall x :: start <= x < p ==> script[x] !in "\n\0" && buf[x] == if script[x] == '\r' then '\0' else script[x]
  }

  // These lines, and then those of the text from `start`, are the lines of the script.
  ghost predicate Splits(script: string, lines: seq<string>, start: nat) {
    start <= |script| && lines + SplitLines(script[start..], |lines| + 1) == SplitLines(script, 1)
  }

  lemma SplitsNone(script: string)
    ensures Splits(script, [], 0)
  {
    assert script[0..] == script;
  }

  lemma SplitsNext(script: string, lines: seq<string>, start: nat, next: nat, line: string)
    requires Splits(script, lines, start) && next <= |script|
    requires SplitLines(script[start..], |lines| + 1) == [line] + SplitLines(script[next..], |lines| + 2)
    ensures Splits(script, lines + [line], next)
  {
    hide SplitLines;
    var rest := SplitLines(script[next..], |lines| + 2);
    assert lines + ([line] + rest) == (lines + [line]) + rest;
  }

  lemma SplitsAll(script: string, lines: seq<string>, start: nat, line: string)
    requires Splits(script, lines, start) && SplitLines(script[start..], |lines| + 1) == [line]
    ensures lines + [line] == SplitLines(script, 1)
  {
    hide SplitLines;
  }

  lemma CutStarts(buf: string, script: string)
    requires buf == script + "\0"
    ensures CutTo(buf, script, 0, 0)
  {
  }

  // The line from `start` ended at p, which has been overwritten.
  ghost predicate LineDone(buf: string, script: string, start: nat, p: nat) {
    && start <= p < |script| && |buf| == |script| + 1 && buf[p] == '\0' && script[p] == '\n'
    && forall x :: start <= x < p ==> script[x] !in "\n\0" && buf[x] == if script[x] == '\r' then '\0' else script[x]
  }

  // The finished line reads as the text up to its first stop.
  lemma DoneReads(buf: string, script: string, start: nat, p: nat, n: nat)
    requires LineDone(buf, script, start, p) && n < MAX_LINES
    ensures SplitLines(script[start..], n) == [UpToNul(buf[start..])] + SplitLines(script[p + 1..], n + 1)
  {
    var s := script[start..];
    LineEndIs(s, p - start);
    assert s[p - start + 1..] == script[p + 1..];
    StoppedLine(buf[start..], s, p - start);
  }

  lemma {:induction false} LineEndIs(s: string, k: nat)
    requires k <= |s| && (k < |s| ==> s[k] in "\n\0") && forall i :: 0 <= i < k ==> s[i] !in "\n\0"
    ensures LineEnd(s) == k
    decreases k
  {
    if k > 0 { LineEndIs(s[1..], k - 1); }
  }

  lemma {:induction false} StoppedLine(buf: string, s: string, k: nat)
    requires k < |buf| && k <= |s| && buf[k] == '\0' && (k < |s| ==> s[k] in "\n\0")
    requires forall i :: 0 <= i < k ==> s[i] !in "\n\0" && buf[i] == if s[i] == '\r' then '\0' else s[i]
    ensures UpToNul(buf) == UpToStop(s)
    decreases k
  {
    if k > 0 { StoppedLine(buf[1..], s[1..], k - 1); }
  }

  lemma {:induction false} NulAtEnd(s: string)
    ensures UpToNul(s + "\0") == UpToNul(s)
  {
    if s != "" { NulAtEnd(s[1..]); assert (s + "\0")[1..] == s[1..] + "\0"; }
  }

  // The line on which the loop stops: at a terminator, or because no more lines fit.
  lemma LastReads(buf: string, script: string, start: nat, p: nat, n: nat)
    requires CutTo(buf, script, start, p) && n <= MAX_LINES
    requires n == MAX_LINES ==> p == start
    requires n < MAX_LINES ==> buf[p] == '\0'
    ensures SplitLines(script[start..], n) == [UpToNul(buf[start..])]
  {
    var s := script[start..];
    if n == MAX_LINES {
      assert buf[start..] == s + "\0";
      NulAtEnd(s);
    } else {
      LineEndIs(s, p - start);
      StoppedLine(buf[start..], s, p - start);
    }
  }
}
