/**
 The Manly Batch File language (mbf/mbf.c): how a line is read, what the line-and-brace
 interpreter does with a list of lines, and the meaning of a program as a tree.
 */
module MbfLang {
  const MAX_VARS: nat := 32
  const LINE_MAX: nat := 511
  const SCAN_MAX: nat := 255
  const VNAME_MAX: nat := 31
  const MAX_TOKENS: nat := 16
  const MAX_LINES: nat := 512

  const NAME_SIZE: nat := 32
  const VALUE_SIZE: nat := 128
  const ENTRY_SIZE: nat := 160
  const TABLE_SIZE: nat := 5120

  datatype Var = Var(name: string, value: string)

  // What the interpreter keeps: the memory of its variable table, how many entries are in use, the
  // commands carried out, as token lists, and whether one of them has stopped the machine.
  datatype Machine = Machine(mem: seq<char>, count: nat, trace: seq<seq<string>>, halted: bool)

  // The same without limits on names and values; `spilled` says that one has been stored for which
  // a table entry is too small.
  datatype Store = Store(vars: seq<Var>, trace: seq<seq<string>>, halted: bool, spilled: bool)

  // ---- Characters and words ----

  predicate IsSpace(c: char) {
    c == ' ' || c == '\t' || c == '\r' || c == '\n'
  }

  predicate IsAlnum(c: char) {
    'a' <= c <= 'z' || 'A' <= c <= 'Z' || '0' <= c <= '9' || c == '_'
  }

  function Clip(s: string, n: nat): (r: string)
    ensures |r| <= n && |r| <= |s| && forall i :: 0 <= i < |r| ==> r[i] == s[i]
  {
    if |s| <= n then s else s[..n]
  }

  function SkipSpaces(s: string): (r: string)
    ensures |r| <= |s| && (r != "" ==> !IsSpace(r[0])) && forall c :: c in r ==> c in s
  {
    if s != "" && IsSpace(s[0]) then SkipSpaces(s[1..]) else s
  }

  function DropSpaces(s: string): (r: string)
    ensures |r| <= |s| && forall c :: c in r ==> c in s
  {
    if s != "" && IsSpace(s[|s| - 1]) then DropSpaces(s[..|s| - 1]) else s
  }

  function Trim(s: string): (r: string)
    ensures |r| <= |s| && forall c :: c in r ==> c in s
  {
    DropSpaces(SkipSpaces(s))
  }

  function Word(s: string): (w: string)
    ensures |w| <= |s| && s[..|w|] == w && forall i :: 0 <= i < |w| ==> !IsSpace(w[i])
    ensures |w| < |s| ==> IsSpace(s[|w|])
  {
    if s == "" || IsSpace(s[0]) then "" else [s[0]] + Word(s[1..])
  }

  function Tokens(s: string, max: nat): (t: seq<string>)
    ensures |t| <= max
    decreases max
  {
    var p := SkipSpaces(s);
    if max == 0 || p == "" then [] else [Word(p)] + Tokens(p[|Word(p)|..], max - 1)
  }

  // ---- Variables ----

  function IndexOf(vars: seq<Var>, name: string): (i: nat)
    ensures i <= |vars| && (i < |vars| ==> vars[i].name == name)
  {
    if vars == [] || vars[0].name == name then 0 else 1 + IndexOf(vars[1..], name)
  }

  // A full store ignores new names.
  function VarSet(vars: seq<Var>, name: string, value: string): seq<Var> {
    var i := IndexOf(vars, name);
    if i < |vars| then vars[i := Var(name, value)]
    else if |vars| < MAX_VARS then vars + [Var(name, value)]
    else vars
  }

  function VarGet(vars: seq<Var>, name: string): string {
    var i := IndexOf(vars, name);
    if i < |vars| then vars[i].value else ""
  }

  // Storing this would write past the end of a name or a value in the table.
  predicate Spills(vars: seq<Var>, name: string, value: string) {
    if IndexOf(vars, name) < |vars| then |value| >= VALUE_SIZE
    else |vars| < MAX_VARS && (|name| >= NAME_SIZE || |value| >= VALUE_SIZE)
  }

  // ---- The table in memory ----

  // The C string at an offset.  What lies behind the table is not part of this model.
  function CString(mem: seq<char>, p: nat): (s: string)
    decreases |mem| - p
  {
    if p >= |mem| || mem[p] == '\0' then "" else [mem[p]] + CString(mem, p + 1)
  }

  // Copying a string and its terminator to an offset, over whatever is there.
  function Put(mem: seq<char>, p: nat, s: string): (r: seq<char>)
    ensures |r| == |mem|
  {
    seq(|mem|, k requires 0 <= k < |mem| =>
      if p <= k < p + |s| then s[k - p] else if k == p + |s| then '\0' else mem[k])
  }

  function NameAt(mem: seq<char>, i: nat): string {
    CString(mem, ENTRY_SIZE * i)
  }

  function ValueAt(mem: seq<char>, i: nat): string {
    CString(mem, ENTRY_SIZE * i + NAME_SIZE)
  }

  // What the first n entries read as.
  function Entries(mem: seq<char>, n: nat): (vars: seq<Var>)
    ensures |vars| == n
  {
    seq(n, i requires 0 <= i < n => Var(NameAt(mem, i), ValueAt(mem, i)))
  }

  function Vars(m: Machine): seq<Var> {
    Entries(m.mem, m.count)
  }

  function PutVar(m: Machine, name: string, value: string): Machine {
    var i := IndexOf(Vars(m), name);
    if i < m.count then m.(mem := Put(m.mem, ENTRY_SIZE * i + NAME_SIZE, value))
    else if m.count < MAX_VARS then
      var named := Put(m.mem, ENTRY_SIZE * m.count, name);
      m.(mem := Put(named, ENTRY_SIZE * m.count + NAME_SIZE, value), count := m.count + 1)
    else m
  }

  // ---- Reading a line ----

  function Alnums(s: string, max: nat): (w: string)
    ensures |w| <= max && |w| <= |s| && s[..|w|] == w
  {
    if max == 0 || s == "" || !IsAlnum(s[0]) then "" else [s[0]] + Alnums(s[1..], max - 1)
  }

  // Replace $NAME by its value, writing at most `room` characters.
  function Expand(s: string, vars: seq<Var>, room: nat): (r: string)
    ensures |r| <= room
    decreases |s|
  {
    if s == "" || room == 0 then ""
    else if s[0] == '$' then
      var name := Alnums(s[1..], VNAME_MAX);
      var value := Clip(VarGet(vars, name), room);
      value + Expand(s[1 + |name|..], vars, room - |value|)
    else [s[0]] + Expand(s[1..], vars, room - 1)
  }

  // The tokens of a line; none for an empty line or a comment.
  function Parsed(line: string, vars: seq<Var>): seq<string> {
    var p := Trim(Clip(line, LINE_MAX));
    if p == "" || p[0] == '#' then [] else Tokens(Expand(p, vars, LINE_MAX), MAX_TOKENS)
  }

  // ---- Blocks in a list of lines ----

  datatype Scan = Open(depth: int) | Closed

  // Count braces; a closing one that brings the depth to zero ends the scan.
  function Braces(s: string, depth: int): Scan {
    if s == "" then Open(depth)
    else if s[0] == '{' then Braces(s[1..], depth + 1)
    else if s[0] == '}' then if depth == 1 then Closed else Braces(s[1..], depth - 1)
    else Braces(s[1..], depth)
  }

  function ScanLine(line: string, depth: int): Scan {
    Braces(Trim(Clip(line, SCAN_MAX)), depth)
  }

  // The line from the i-th on that closes the block, or -1.
  function CloseFrom(lines: seq<string>, i: nat, depth: int): (e: int)
    ensures e == -1 || i <= e < |lines|
    decreases |lines| - i
  {
    if i >= |lines| then -1
    else match ScanLine(lines[i], depth)
      case Closed => i
      case Open(d) => CloseFrom(lines, i + 1, d)
  }

  predicate StartsElse(line: string) {
    var t := Trim(Clip(line, SCAN_MAX));
    |t| >= 4 && t[..4] == "else"
  }

  // Where an if statement's parts are; -1 for what is not there.
  datatype Parts = Parts(thenEnd: int, elseStart: int, elseEnd: int, next: nat)

  function PartsOf(lines: seq<string>, ip: nat): (b: Parts)
    requires ip < |lines|
    ensures -1 <= b.thenEnd < |lines| && -1 <= b.elseEnd < |lines| && (b.elseStart == -1 || b.elseStart > ip)
    ensures ip <= b.next < |lines|
  {
    var thenEnd := CloseFrom(lines, ip, 0);
    if thenEnd == -1 then Parts(-1, -1, -1, ip)
    else if thenEnd + 1 < |lines| && StartsElse(lines[thenEnd + 1]) then
      var elseEnd := CloseFrom(lines, thenEnd + 1, 0);
      Parts(thenEnd, thenEnd + 2, elseEnd, if elseEnd >= 0 then elseEnd else thenEnd)
    else Parts(thenEnd, -1, -1, thenEnd)
  }

  // ---- The interpreter on a list of lines ----

  predicate IsIf(toks: seq<string>) {
    toks != [] && toks[0] == "if" && |toks| >= 4 && (toks[2] == "==" || toks[2] == "!=")
  }

  predicate Holds(toks: seq<string>, vars: seq<Var>)
    requires IsIf(toks)
  {
    if toks[2] == "==" then VarGet(vars, toks[1]) == toks[3] else VarGet(vars, toks[1]) != toks[3]
  }

  predicate Stops(toks: seq<string>) {
    toks != [] && (toks[0] == "halt" || toks[0] == "reboot")
  }

  // Every command but `set` and a well-formed `if` only adds to the trace; two stop the machine.
  function Execute(toks: seq<string>, m: Machine): Machine {
    if toks == [] then m
    else if toks[0] == "set" && |toks| >= 3 then PutVar(m, toks[1], toks[2])
    else m.(trace := m.trace + [toks], halted := Stops(toks))
  }

  // The machine after the line at ip, and the last line it took.
  function ExecLine(lines: seq<string>, ip: nat, m: Machine): (r: (Machine, nat))
    requires ip < |lines|
    ensures ip <= r.1 < |lines|
    decreases |lines| - ip, 0
  {
    var toks := Parsed(lines[ip], Vars(m));
    if !IsIf(toks) then (Execute(toks, m), ip)
    else
      var b := PartsOf(lines, ip);
      if Holds(toks, Vars(m)) then (ExecRange(lines, ip + 1, if b.thenEnd >= 0 then b.thenEnd else |lines|, m), b.next)
      else if b.elseStart >= 0 && b.elseEnd >= 0 then (ExecRange(lines, b.elseStart, b.elseEnd, m), b.next)
      else (m, b.next)
  }

  function ExecRange(lines: seq<string>, lo: nat, hi: nat, m: Machine): Machine
    requires hi <= |lines|
    decreases |lines| - lo, 1
  {
    if lo >= hi || m.halted then m
    else
      var (m', last) := ExecLine(lines, lo, m);
      ExecRange(lines, last + 1, hi, m')
  }

  // ---- Programs as trees ----

  datatype Operand = Plain(word: string) | Ref(name: string)

  datatype Stmt =
    | Leaf(text: string)
    | If(name: string, equal: bool, rhs: Operand, thn: Block)
    | IfElse(name: string, equal: bool, rhs: Operand, thn: Block, els: Block)

  datatype Block = End | Then(first: Stmt, rest: Block)

  function OperandText(rhs: Operand): string {
    match rhs
    case Plain(w) => w
    case Ref(v) => "$" + v
  }

  function Op(equal: bool): string {
    if equal then "==" else "!="
  }

  function HeaderStart(name: string, equal: bool): string {
    "if " + (name + (" " + (Op(equal) + " ")))
  }

  function Header(name: string, equal: bool, rhs: Operand): string {
    HeaderStart(name, equal) + OperandText(rhs) + " {"
  }

  function StmtLines(s: Stmt): (ls: seq<string>)
    ensures |ls| > 0
  {
    match s
    case Leaf(text) => [text]
    case If(name, equal, rhs, thn) => [Header(name, equal, rhs)] + Lines(thn) + ["}"]
    case IfElse(name, equal, rhs, thn, els) =>
      [Header(name, equal, rhs)] + Lines(thn) + ["}"] + ["else {"] + Lines(els) + ["}"]
  }

  function Lines(b: Block): seq<string> {
    match b
    case End => []
    case Then(s, rest) => StmtLines(s) + Lines(rest)
  }

  // The right-hand side's value; one that is empty is read as the brace that follows it, and one
  // that is too long for the expansion buffer is cut.
  function OperandValue(vars: seq<Var>, name: string, rhs: Operand): string {
    match rhs
    case Plain(w) => w
    case Ref(v) =>
      var value := VarGet(vars, v);
      if value == "" then "{" else Clip(value, if |name| + 7 <= LINE_MAX then LINE_MAX - 7 - |name| else 0)
  }

  predicate Test(vars: seq<Var>, name: string, equal: bool, rhs: Operand) {
    (VarGet(vars, name) == OperandValue(vars, name, rhs)) == equal
  }

  function Command(toks: seq<string>, st: Store): Store {
    if toks == [] then st
    else if toks[0] == "set" && |toks| >= 3 then
      st.(vars := VarSet(st.vars, toks[1], toks[2]), spilled := st.spilled || Spills(st.vars, toks[1], toks[2]))
    else st.(trace := st.trace + [toks], halted := Stops(toks))
  }

  function RunStmt(s: Stmt, st: Store): Store
    decreases s
  {
    match s
    case Leaf(text) => Command(Parsed(text, st.vars), st)
    case If(name, equal, rhs, thn) => if Test(st.vars, name, equal, rhs) then Run(thn, st) else st
    case IfElse(name, equal, rhs, thn, els) => if Test(st.vars, name, equal, rhs) then Run(thn, st) else Run(els, st)
  }

  function Run(b: Block, st: Store): Store
    decreases b
  {
    match b
    case End => st
    case Then(s, rest) => if st.halted then st else Run(rest, RunStmt(s, st))
  }

  // ---- Programs that can be written down ----

  predicate NoBraces(s: string) {
    '{' !in s && '}' !in s
  }

  predicate PlainWord(s: string) {
    s != "" && NoBraces(s) && '$' !in s && forall i :: 0 <= i < |s| ==> !IsSpace(s[i])
  }

  predicate OperandOk(rhs: Operand) {
    match rhs
    case Plain(w) => PlainWord(w)
    case Ref(v) => 0 < |v| <= VNAME_MAX && forall i :: 0 <= i < |v| ==> IsAlnum(v[i])
  }

  // A C string without braces whose first word is neither `if` nor taken from a variable.
  predicate LeafOk(text: string) {
    var p := Trim(Clip(text, LINE_MAX));
    NoBraces(text) && '\0' !in text && (p == "" || p[0] == '#' || (Word(p) != "if" && '$' !in Word(p)))
  }

  predicate HeaderOk(name: string, equal: bool, rhs: Operand) {
    PlainWord(name) && OperandOk(rhs) && |Header(name, equal, rhs)| <= SCAN_MAX
  }

  predicate StmtOk(s: Stmt) {
    match s
    case Leaf(text) => LeafOk(text)
    case If(name, equal, rhs, thn) => HeaderOk(name, equal, rhs) && BlockOk(thn)
    case IfElse(name, equal, rhs, thn, els) => HeaderOk(name, equal, rhs) && BlockOk(thn) && BlockOk(els)
  }

  // A leaf after an if without else must not look like an else.
  predicate BlockOk(b: Block) {
    match b
    case End => true
    case Then(s, rest) => StmtOk(s) && BlockOk(rest) && (s.If? && rest.Then? && rest.first.Leaf? ==> !StartsElse(rest.first.text))
  }

  // ---- Programs that need no more room than a table entry has ----

  // A word that stands for itself and fits, or for a single variable.
  predicate ValueFits(w: string) {
    ('$' !in w && |w| < VALUE_SIZE) || (w != "" && w[0] == '$' && OperandOk(Ref(w[1..])))
  }

  predicate WordsFit(s: string)
    decreases |s|
  {
    var p := SkipSpaces(s);
    p == "" || (ValueFits(Word(p)) && WordsFit(p[|Word(p)|..]))
  }

  // A variable's name, spelled out in less than 32 characters, and words that fit.
  predicate NameFits(s: string) {
    var q := SkipSpaces(s);
    '$' !in Word(q) && |Word(q)| < NAME_SIZE && WordsFit(q[|Word(q)|..])
  }

  // What a `set` is given fits.
  predicate LeafFits(text: string) {
    var p := Trim(Clip(text, LINE_MAX));
    p != "" && p[0] != '#' && Word(p) == "set" ==> NameFits(p[3..])
  }

  predicate StmtFits(s: Stmt) {
    match s
    case Leaf(text) => LeafFits(text)
    case If(_, _, _, thn) => BlockFits(thn)
    case IfElse(_, _, _, thn, els) => BlockFits(thn) && BlockFits(els)
  }

  predicate BlockFits(b: Block) {
    match b
    case End => true
    case Then(s, rest) => StmtFits(s) && BlockFits(rest)
  }
}
