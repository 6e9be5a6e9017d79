/**
 The records of /etc/passwd (auth/auth.c): printing and parsing numbers and fields, looking a
 name up line by line, and why a record that was appended is found again.
 */
module PasswdFormat {
  const TWO32: nat := 0x1_0000_0000
  const NAME_MAX: nat := 32
  const HASH_MAX: nat := 16
  const HOME_MAX: nat := 64
  const SHELL_MAX: nat := 32
  const LINE_MAX: nat := 255

  datatype User = User(name: string, uid: nat, gid: nat, home: string, shell: string)

  // No record of the name, one that is locked or has another password, or success.
  datatype Verdict = Absent | Refused | Accepted(user: User)

  // ---- Hexadecimal ----

  function HexDigit(d: nat): (c: char)
    requires d < 16
    ensures HexValue(c) == d && c !in ":\n#!" && c != '\0'
  {
    if d < 10 then '0' + d as char else 'a' + (d - 10) as char
  }

  // Characters that are not digits count as zero.
  function HexValue(c: char): (d: nat)
    ensures d < 16
  {
    if '0' <= c <= '9' then (c - '0') as nat
    else if 'a' <= c <= 'f' then (c - 'a') as nat + 10
    else if 'A' <= c <= 'F' then (c - 'A') as nat + 10
    else 0
  }

  function Hex(v: nat, k: nat): (s: string)
    ensures |s| == k
  {
    if k == 0 then "" else Hex(v / 16, k - 1) + [HexDigit(v % 16)]
  }

  // Reading hexadecimal digits into 32 bits, on top of v.
  function ReadHex(s: string, v: nat): nat {
    if s == "" then v else ReadHex(s[1..], (v * 16 + HexValue(s[0])) % TWO32)
  }

  function HexOf(s: string): nat {
    ReadHex(if |s| <= 8 then s else s[..8], 0)
  }

  function Pow16(k: nat): (p: nat)
    ensures p > 0
  {
    if k == 0 then 1 else 16 * Pow16(k - 1)
  }

  lemma {:induction false} ReadHexAppend(s: string, c: char, v: nat)
    ensures ReadHex(s + [c], v) == (ReadHex(s, v) * 16 + HexValue(c)) % TWO32
    decreases |s|
  {
    if s == "" {
      assert s + [c] == [c] && [c][1..] == "";
    } else {
      assert (s + [c])[1..] == s[1..] + [c];
      ReadHexAppend(s[1..], c, (v * 16 + HexValue(s[0])) % TWO32);
    }
  }

  lemma {:induction false} HexReads(v: nat, k: nat)
    requires v < Pow16(k) && Pow16(k) <= TWO32
    ensures ReadHex(Hex(v, k), 0) == v
    decreases k
  {
    if k > 0 {
      HexReads(v / 16, k - 1);
      ReadHexAppend(Hex(v / 16, k - 1), HexDigit(v % 16), 0);
    }
  }

  lemma {:induction false} HexIsPlain(v: nat, k: nat)
    ensures forall i :: 0 <= i < k ==> Hex(v, k)[i] !in ":\n#!" && Hex(v, k)[i] != '\0'
    decreases k
  {
    if k > 0 { HexIsPlain(v / 16, k - 1); }
  }

  // Eight digits hold any 32-bit number.
  lemma HexRoundTrip(v: nat)
    requires v < TWO32
    ensures HexOf(Hex(v, 8)) == v
  {
    assert Pow16(8) == TWO32 by {
      assert Pow16(2) == 256 && Pow16(4) == 256 * Pow16(2) && Pow16(6) == 256 * Pow16(4);
    }
    HexReads(v, 8);
  }

  // ---- Decimal ----

  function DecDigit(d: nat): (c: char)
    requires d < 10
    ensures IsDigit(c) && DigitValue(c) == d
  {
    '0' + d as char
  }

  predicate IsDigit(c: char) {
    '0' <= c <= '9'
  }

  function DigitValue(c: char): nat
    requires IsDigit(c)
  {
    (c - '0') as nat
  }

  function Dec(v: nat): (s: string)
    ensures s != "" && forall i :: 0 <= i < |s| ==> IsDigit(s[i])
  {
    if v < 10 then [DecDigit(v)] else Dec(v / 10) + [DecDigit(v % 10)]
  }

  // Reading a number off the front of a line, into 32 bits; the value and what is left.
  function ReadDec(s: string, v: nat): (r: (nat, string))
    ensures |r.1| <= |s|
  {
    if s != "" && IsDigit(s[0]) then ReadDec(s[1..], (v * 10 + DigitValue(s[0])) % TWO32) else (v, s)
  }

  // parse_u32
  function Number(s: string): (r: (nat, string))
    ensures |r.1| <= |s|
  {
    var (v, rest) := ReadDec(s, 0);
    (v, DropColon(rest))
  }

  function DropColon(s: string): (r: string)
    ensures |r| <= |s|
  {
    if s != "" && s[0] == ':' then s[1..] else s
  }

  lemma {:induction false} ReadDecAppend(digits: string, rest: string, v: nat)
    requires forall i :: 0 <= i < |digits| ==> IsDigit(digits[i])
    ensures ReadDec(digits + rest, v) == ReadDec(rest, ReadDec(digits, v).0) && ReadDec(digits, v).1 == ""
    decreases |digits|
  {
    if digits == "" {
      assert digits + rest == rest;
    } else {
      assert (digits + rest)[1..] == digits[1..] + rest;
      ReadDecAppend(digits[1..], rest, (v * 10 + DigitValue(digits[0])) % TWO32);
    }
  }

  lemma LastDigitReads(high: nat, d: nat)
    requires d < 10 && high * 10 + d < TWO32
    ensures ReadDec([DecDigit(d)], high) == (high * 10 + d, "")
  {
    assert [DecDigit(d)][1..] == "";
  }

  lemma {:induction false} DecReads(v: nat)
    requires v < TWO32
    ensures ReadDec(Dec(v), 0) == (v, "")
    decreases v
  {
    if v >= 10 {
      DecReads(v / 10);
      var high, low := Dec(v / 10), [DecDigit(v % 10)];
      assert Dec(v) == high + low;
      hide Dec;
      ReadDecAppend(high, low, 0);
      LastDigitReads(v / 10, v % 10);
    } else {
      assert [DecDigit(v)][1..] == "";
    }
  }

  // A printed number and the colon behind it are read back.
  lemma NumberReads(v: nat, rest: string)
    requires v < TWO32
    ensures Number(Dec(v) + (":" + rest)) == (v, rest)
  {
    ReadDecAppend(Dec(v), ":" + rest, 0);
    DecReads(v);
    assert (":" + rest)[1..] == rest;
  }

  // ---- Fields ----

  predicate FieldChar(c: char) {
    c != '\0' && c != ':' && c != '\n'
  }

  // The field at the front of a line, at most max - 1 characters of it.
  function Taken(s: string, max: nat): (f: string)
    requires max > 0
    ensures |f| < max && |f| <= |s| && s[..|f|] == f
    decreases max
  {
    if max == 1 || s == "" || !FieldChar(s[0]) then "" else [s[0]] + Taken(s[1..], max - 1)
  }

  // parse_field: the field and what is left.
  function Field(s: string, max: nat): (r: (string, string))
    requires max > 0
    ensures |r.1| <= |s|
  {
    var f := Taken(s, max);
    (f, DropColon(s[|f|..]))
  }

  predicate FieldText(s: string) {
    forall i :: 0 <= i < |s| ==> FieldChar(s[i])
  }

  lemma {:induction false} TakenWhole(f: string, rest: string, max: nat)
    requires FieldText(f) && |f| < max && (rest == "" || !FieldChar(rest[0]))
    ensures Taken(f + rest, max) == f
    decreases |f|
  {
    if f == "" {
      assert f + rest == rest;
    } else {
      assert (f + rest)[1..] == f[1..] + rest;
      TakenWhole(f[1..], rest, max - 1);
    }
  }

  lemma FieldReads(f: string, rest: string, max: nat)
    requires FieldText(f) && |f| < max
    ensures Field(f + (":" + rest), max) == (f, rest)
  {
    TakenWhole(f, ":" + rest, max);
    assert (f + (":" + rest))[|f|..] == ":" + rest && (":" + rest)[1..] == rest;
  }

  lemma LastFieldReads(f: string, max: nat)
    requires FieldText(f) && |f| < max
    ensures Field(f, max) == (f, "")
  {
    assert f + "" == f;
    TakenWhole(f, "", max);
  }

  // ---- Lines ----

  datatype Entry = Entry(name: string, hash: string, uid: nat, gid: nat, home: string, shell: string)

  function Parse(line: string): Entry {
    var (name, l1) := Field(line, NAME_MAX);
    var (hash, l2) := Field(l1, HASH_MAX);
    var (uid, l3) := Number(l2);
    var (gid, l4) := Number(l3);
    var (home, l5) := Field(l4, HOME_MAX);
    var (shell, _) := Field(l5, SHELL_MAX);
    Entry(name, hash, uid, gid, home, shell)
  }

  // A record without its newline.
  function Print(u: User, hash: nat): string {
    u.name + (":" + (Hex(hash, 8) + (":" + (Dec(u.uid) + (":" + (Dec(u.gid) + (":" + (u.home + (":" + u.shell)))))))))
  }

  predicate LegalUser(u: User) {
    && FieldText(u.name) && |u.name| < NAME_MAX && (u.name != "" ==> u.name[0] != '#')
    && FieldText(u.home) && |u.home| < HOME_MAX && FieldText(u.shell) && |u.shell| < SHELL_MAX
    && u.uid < TWO32 && u.gid < TWO32
  }

  lemma {:induction false} DecLength(v: nat, bound: nat, k: nat)
    requires k > 0 && bound == Power10(k) && v < bound
    ensures |Dec(v)| <= k
    decreases k
  {
    if v >= 10 { DecLength(v / 10, Power10(k - 1), k - 1); }
  }

  function Power10(k: nat): nat {
    if k == 0 then 1 else 10 * Power10(k - 1)
  }

  // A printed record fits the line buffers of reader and writer.
  lemma PrintFits(u: User, hash: nat)
    requires LegalUser(u)
    ensures |Print(u, hash)| < LINE_MAX - 90
  {
    assert Power10(10) == 10_000_000_000 by { assert Power10(5) == 100_000; }
    DecLength(u.uid, Power10(10), 10);
    DecLength(u.gid, Power10(10), 10);
    hide Dec, Hex;
  }

  // Parsing a printed record gives its fields back.
  lemma ParsePrinted(u: User, hash: nat)
    requires LegalUser(u) && hash < TWO32
    ensures Parse(Print(u, hash)) == Entry(u.name, Hex(hash, 8), u.uid, u.gid, u.home, u.shell)
    ensures HexOf(Hex(hash, 8)) == hash && Hex(hash, 8)[0] != '!'
  {
    HexRoundTrip(hash);
    HexIsPlain(hash, 8);
    var r5 := u.shell;
    var r4 := u.home + (":" + r5);
    var r3 := Dec(u.gid) + (":" + r4);
    var r2 := Dec(u.uid) + (":" + r3);
    var r1 := Hex(hash, 8) + (":" + r2);
    hide Hex, Dec, Taken, FieldText, Field, Number;
    assert FieldText(Hex(hash, 8)) by { PlainField(hash); }
    FieldReads(u.name, r1, NAME_MAX);
    FieldReads(Hex(hash, 8), r2, HASH_MAX);
    NumberReads(u.uid, r3);
    NumberReads(u.gid, r4);
    FieldReads(u.home, r5, HOME_MAX);
    LastFieldReads(u.shell, SHELL_MAX);
  }

  lemma PlainField(hash: nat)
    ensures FieldText(Hex(hash, 8))
  {
    HexIsPlain(hash, 8);
    var h := Hex(hash, 8);
    hide Hex;
    forall i | 0 <= i < |h| ensures FieldChar(h[i]) {}
  }

  // ---- Looking a name up ----

  // The line at a position: up to a newline, the end, or 255 characters.
  function LineAt(data: string, pos: nat, room: nat): (line: string)
    requires pos <= |data|
    ensures |line| <= room && pos + |line| <= |data|
    decreases room
  {
    if room == 0 || pos == |data| || data[pos] == '\n' then ""
    else [data[pos]] + LineAt(data, pos + 1, room - 1)
  }

  // Past the line and the newline behind it, if there is one.
  function After(data: string, pos: nat, n: nat): (next: nat)
    requires pos + n <= |data|
    ensures next <= |data|
  {
    if pos + n < |data| && data[pos + n] == '\n' then pos + n + 1 else pos + n
  }

  predicate Skipped(line: string) {
    line == "" || line[0] == '#'
  }

  function Judge(e: Entry, hash: nat): Verdict {
    if (e.hash != "" && e.hash[0] == '!') || HexOf(e.hash) != hash then Refused
    else Accepted(User(e.name, e.uid, e.gid, e.home, e.shell))
  }

  // The first record with this name decides.
  function Lookup(data: string, pos: nat, name: string, hash: nat): Verdict
    requires pos <= |data|
    decreases |data| - pos
  {
    if pos == |data| then Absent
    else
      var line := LineAt(data, pos, LINE_MAX);
      var next := After(data, pos, |line|);
      LineAdvances(data, pos);
      if Skipped(line) || Parse(line).name != name then Lookup(data, next, name, hash)
      else Judge(Parse(line), hash)
  }

  lemma LineAdvances(data: string, pos: nat)
    requires pos < |data|
    ensures After(data, pos, |LineAt(data, pos, LINE_MAX)|) > pos
  {
  }

  // ---- Appending a record ----

  // A file to which a record can be appended: empty, or its last line is complete.
  predicate Complete(data: string) {
    data == "" || data[|data| - 1] == '\n'
  }

  lemma {:induction false} LineInFront(data: string, more: string, pos: nat, room: nat)
    requires Complete(data) && pos < |data|
    ensures LineAt(data + more, pos, room) == LineAt(data, pos, room)
    ensures pos + |LineAt(data, pos, room)| < |data|
    decreases room
  {
    if room > 0 && data[pos] != '\n' {
      assert pos + 1 < |data|;
      LineInFront(data, more, pos + 1, room - 1);
    }
  }

  // What follows a complete file does not change how its own lines are read.
  lemma {:induction false} LookupAppended(data: string, more: string, pos: nat, name: string, hash: nat)
    requires Complete(data) && pos <= |data|
    ensures Lookup(data + more, pos, name, hash) ==
      (if Lookup(data, pos, name, hash) == Absent then Lookup(data + more, |data|, name, hash)
      else Lookup(data, pos, name, hash))
    decreases |data| - pos
  {
    if pos < |data| {
      hide Parse, LineAt, Judge, Skipped;
      LineInFront(data, more, pos, LINE_MAX);
      var line := LineAt(data, pos, LINE_MAX);
      var next := After(data, pos, |line|);
      LineAdvances(data, pos);
      assert After(data + more, pos, |line|) == next;
      LookupAppended(data, more, next, name, hash);
    }
  }

  lemma {:induction false} WholeLine(data: string, pos: nat, line: string, room: nat)
    requires pos + |line| < |data| && data[pos..pos + |line|] == line && data[pos + |line|] == '\n'
    requires |line| <= room && '\n' !in line
    ensures LineAt(data, pos, room) == line
    decreases |line|
  {
    if line != "" {
      assert data[pos] == line[0] && line[0] in line;
      assert data[pos + 1..pos + 1 + |line[1..]|] == line[1..];
      assert forall c :: c in line[1..] ==> c in line;
      WholeLine(data, pos + 1, line[1..], room - 1);
    }
  }

  // A record that has just been appended decides for its own name.
  lemma LastRecord(data: string, u: User, hash: nat, asked: nat)
    requires LegalUser(u) && hash < TWO32
    ensures Lookup(data + (Print(u, hash) + "\n"), |data|, u.name, asked) ==
      if asked == hash then Accepted(u) else Refused
  {
    hide Print, Parse, Lookup, LineAt, Skipped;
    var line := Print(u, hash);
    var all := data + (line + "\n");
    PrintShape(u, hash);
    PrintFits(u, hash);
    ParsePrinted(u, hash);
    LineBehind(data, line);
    WholeLine(all, |data|, line, LINE_MAX);
    LookupHere(all, |data|, u.name, asked);
    hide LegalUser, HexOf, Hex;
  }

  lemma LineBehind(data: string, line: string)
    ensures var all := data + (line + "\n");
      |data| + |line| < |all| && all[|data|..|data| + |line|] == line && all[|data| + |line|] == '\n'
  {
  }

  lemma LookupHere(data: string, pos: nat, name: string, hash: nat)
    requires pos < |data|
    ensures var line := LineAt(data, pos, LINE_MAX);
      !Skipped(line) && Parse(line).name == name ==> Lookup(data, pos, name, hash) == Judge(Parse(line), hash)
  {
    hide Parse, LineAt, Judge;
  }

  // A printed record is one line and no comment.
  lemma PrintShape(u: User, hash: nat)
    requires LegalUser(u)
    ensures var line := Print(u, hash); '\n' !in line && !Skipped(line)
  {
    HexIsPlain(hash, 8);
    var h, d, g := Hex(hash, 8), Dec(u.uid), Dec(u.gid);
    assert '\n' !in u.name && '\n' !in h && '\n' !in d && '\n' !in g && '\n' !in u.home && '\n' !in u.shell && '\n' !in ":";
    hide Hex, Dec;
    var line := Print(u, hash);
    if u.name == "" { assert line[0] == ':'; } else { assert line[0] == u.name[0]; }
  }

  // After appending, a name the file did not have is accepted with the new record's fields and
  // password; a name it had is still judged by the old record, which nothing overwrites.
  lemma AppendedIsFound(data: string, u: User, hash: nat, asked: nat)
    requires Complete(data) && LegalUser(u) && hash < TWO32
    ensures Lookup(data + (Print(u, hash) + "\n"), 0, u.name, asked) ==
      if Lookup(data, 0, u.name, asked) != Absent then Lookup(data, 0, u.name, asked)
      else if asked == hash then Accepted(u) else Refused
  {
    hide Print, Lookup;
    LookupAppended(data, Print(u, hash) + "\n", 0, u.name, asked);
    LastRecord(data, u, hash, asked);
  }

  // Adding a name a second time, with a password of another hash, does not change its password: the
  // old one is still accepted and the new one refused.
  lemma SecondRecordIsIgnored(u: User, hash: nat, again: User, hash': nat)
    requires LegalUser(u) && LegalUser(again) && again.name == u.name && hash < TWO32 && hash' < TWO32 && hash' != hash
    ensures var data := Print(u, hash) + "\n";
      && Complete(data)
      && Lookup(data + (Print(again, hash') + "\n"), 0, u.name, hash') == Refused
      && Lookup(data + (Print(again, hash') + "\n"), 0, u.name, hash) == Accepted(u)
  {
    hide Print, Lookup;
    var data := Print(u, hash) + "\n";
    assert "" + data == data;
    LastRecord("", u, hash, hash);
    LastRecord("", u, hash, hash');
    AppendedIsFound(data, again, hash', hash);
    AppendedIsFound(data, again, hash', hash');
  }
}
