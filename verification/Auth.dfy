/**
 The loops of auth/auth.c over /etc/passwd, proved against PasswdFormat.  The file's content is
 an argument, empty when there is no file or no data; passwords and names are C strings.
 */
module Auth {
  import opened PasswdFormat
  import opened PasswdLines

  // ---- Password hash ----

  predicate Bytes(s: string) {
    forall i :: 0 <= i < |s| ==> s[i] as int < 256
  }

  function HashStep(h: bv32, c: char): bv32
    requires c as int < 256
  {
    ((h << 5) + h) ^ (c as int as bv32)
  }

  function HashFrom(s: string, h: bv32): bv32
    requires Bytes(s)
  {
    if s == "" then h else HashFrom(s[1..], HashStep(h, s[0]))
  }

  function HashOf(password: string): (n: nat)
    requires Bytes(password)
    ensures n < TWO32
  {
    Fold(HashFrom(password, 5381))
  }

  // The upper half folded onto the lower.
  function Fold(h: bv32): (n: nat)
    ensures n < TWO32
  {
    (h ^ (h >> 16)) as nat
  }

  // A step multiplies by 33 and takes in one more character.
  lemma StepIs33(h: bv32, c: char)
    requires c as int < 256
    ensures HashStep(h, c) == (33 * h) ^ (c as int as bv32)
  {
  }

  lemma {:induction false} HashAppended(s: string, c: char, h: bv32)
    requires Bytes(s) && c as int < 256
    ensures Bytes(s + [c]) && HashFrom(s + [c], h) == HashStep(HashFrom(s, h), c)
  {
    hide HashStep;
    if s == "" {
      assert s + [c] == [c] && [c][1..] == "";
    } else {
      assert (s + [c])[1..] == s[1..] + [c];
      HashAppended(s[1..], c, HashStep(h, s[0]));
    }
  }

  // What is stored for two passwords, the empty one and one of four letters.
  lemma HashExamples()
    ensures HashOf("") == 5381 && HashOf("root") == 0x7c797e9a
  {
    assert Fold(5381) == 5381 && Fold(0x7c7902e3) == 0x7c797e9a;
    hide Fold;
    assert HashStep(5381, 'r') == 0x2b5d7 && HashStep(0x2b5d7, 'o') == 0x5970d8;
    assert HashStep(0x5970d8, 'o') == 0xb878bb7 && HashStep(0xb878bb7, 't') == 0x7c7902e3;
    hide HashStep;
    assert "root"[1..] == "oot" && "oot"[1..] == "ot" && "ot"[1..] == "t" && "t"[1..] == "";
    assert HashFrom("t", 0xb878bb7) == 0x7c7902e3;
    assert HashFrom("oot", 0x2b5d7) == HashFrom("ot", 0x5970d8);
  }

  // auth_hash_password
  method HashPassword(password: string) returns (n: nat)
    requires Bytes(password)
    ensures n == HashOf(password)
  {
    hide HashStep, Fold;
    var h: bv32 := 5381;
    var p := 0;
    assert password[0..] == password;
    while p < |password|
      invariant 0 <= p <= |password| && HashFrom(password[p..], h) == HashFrom(password, 5381)
    {
      assert password[p..][1..] == password[p + 1..];
      h := HashStep(h, password[p]);
      p := p + 1;
    }
    n := Fold(h);
  }

  // ---- Numbers ----

  // u32_to_hex, from the last digit to the first.
  method ToHex(v: nat) returns (s: string)
    ensures s == Hex(v, 8)
  {
    var out := new char[8];
    var rest := v;
    var i := 8;
    assert out[8..] == "";
    while i > 0
      invariant 0 <= i <= 8 && Hex(rest, i) + out[i..] == Hex(v, 8)
    {
      ghost var done := out[i..];
      i := i - 1;
      out[i] := HexDigit(rest % 16);
      assert out[i..] == [HexDigit(rest % 16)] + done;
      Regroup(Hex(rest / 16, i), [HexDigit(rest % 16)], done);
      rest := rest / 16;
    }
    s := out[..];
    assert out[0..] == out[..];
  }

  lemma Regroup(a: string, b: string, c: string)
    ensures (a + b) + c == a + (b + c)
  {
  }

  // hex_to_u32: at most eight characters.
  method FromHex(s: string) returns (v: nat)
    ensures v == HexOf(s)
  {
    ghost var t := if |s| <= 8 then s else s[..8];
    v := 0;
    var i := 0;
    assert t[0..] == t;
    while i < 8 && i < |s|
      invariant 0 <= i <= |t| && ReadHex(t[i..], v) == ReadHex(t, 0)
    {
      assert t[i..][1..] == t[i + 1..] && t[i..][0] == s[i];
      ghost var was := v;
      v := v * 16 % TWO32;
      var c := s[i];
      ShiftThenAdd(was, HexValue(c));
      if '0' <= c <= '9' {
        v := (v + (c - '0') as nat) % TWO32;
      } else if 'a' <= c <= 'f' {
        v := (v + (c - 'a') as nat + 10) % TWO32;
      } else if 'A' <= c <= 'F' {
        v := (v + (c - 'A') as nat + 10) % TWO32;
      }
      i := i + 1;
    }
  }

  lemma ShiftThenAdd(v: nat, d: nat)
    requires d < 16
    ensures (v * 16 % TWO32 + d) % TWO32 == (v * 16 + d) % TWO32 && v * 16 % TWO32 < TWO32
    ensures v * 16 % TWO32 % TWO32 == v * 16 % TWO32
  {
  }

  // The decimal digits, taken from the right and then turned round.
  method ToDec(v: nat) returns (s: string)
    ensures s == Dec(v)
  {
    if v == 0 { return "0"; }
    hide Dec, Reverse;
    var tmp, rest := [], v;
    assert Tens(rest) + Reverse(tmp) == Dec(v) by { NoDigits(v); }
    while rest != 0
      invariant Tens(rest) + Reverse(tmp) == Dec(v)
    {
      ghost var before := Reverse(tmp);
      TensStep(rest);
      ReverseAppend(tmp, DecDigit(rest % 10));
      Regroup(Tens(rest / 10), [DecDigit(rest % 10)], before);
      tmp := tmp + [DecDigit(rest % 10)];
      rest := rest / 10;
    }
    s := "";
    var i := |tmp|;
    assert tmp[..i] == tmp;
    while i > 0
      invariant 0 <= i <= |tmp| && s + Reverse(tmp[..i]) == Reverse(tmp)
    {
      ReverseAppend(tmp[..i - 1], tmp[i - 1]);
      assert tmp[..i] == tmp[..i - 1] + [tmp[i - 1]];
      Regroup(s, [tmp[i - 1]], Reverse(tmp[..i - 1]));
      i := i - 1;
      s := s + [tmp[i]];
    }
  }

  // The digits still to be taken; none for zero.
  function Tens(v: nat): string {
    if v == 0 then "" else Dec(v)
  }

  lemma TensStep(v: nat)
    requires v > 0
    ensures Tens(v) == Tens(v / 10) + [DecDigit(v % 10)]
  {
  }

  lemma NoDigits(v: nat)
    requires v > 0
    ensures Tens(v) + Reverse("") == Dec(v)
  {
    hide Dec;
    assert Dec(v) + "" == Dec(v);
  }

  function Reverse(s: string): (r: string)
    ensures |r| == |s|
  {
    if s == "" then "" else Reverse(s[1..]) + [s[0]]
  }

  lemma {:induction false} ReverseAppend(s: string, c: char)
    ensures Reverse(s + [c]) == [c] + Reverse(s)
  {
    if s == "" {
      assert s + [c] == [c] && [c][1..] == "";
    } else {
      assert (s + [c])[1..] == s[1..] + [c];
      ReverseAppend(s[1..], c);
      Regroup([c], Reverse(s[1..]), [s[0]]);
    }
  }

  // ---- Parsing ----

  // parse_field; p moves past the field and a colon behind it.
  method ParseField(line: string, p: nat, max: nat) returns (f: string, q: nat)
    requires p <= |line| && max > 0
    ensures p <= q <= |line| && (f, line[q..]) == Field(line[p..], max)
  {
    hide Taken;
    q := p;
    f := "";
    while q < |line| && FieldChar(line[q]) && |f| < max - 1
      invariant p <= q <= |line| && |f| < max && |f| == q - p && f + Taken(line[q..], max - |f|) == Taken(line[p..], max)
    {
      TakeOne(line, q, max - |f|);
      Regroup(f, [line[q]], Taken(line[q + 1..], max - |f| - 1));
      f, q := f + [line[q]], q + 1;
    }
    TakeNone(line, q, max - |f|);
    assert f + "" == f;
    assert line[p..][|f|..] == line[q..];
    if q < |line| && line[q] == ':' {
      assert line[q..][1..] == line[q + 1..];
      q := q + 1;
    }
  }

  lemma TakeOne(line: string, q: nat, max: nat)
    requires q < |line| && FieldChar(line[q]) && max > 1
    ensures Taken(line[q..], max) == [line[q]] + Taken(line[q + 1..], max - 1)
  {
    assert line[q..][1..] == line[q + 1..];
  }

  lemma TakeNone(line: string, q: nat, max: nat)
    requires q <= |line| && max > 0 && (q == |line| || !FieldChar(line[q]) || max == 1)
    ensures Taken(line[q..], max) == ""
  {
  }

  // parse_u32
  method ParseNumber(line: string, p: nat) returns (v: nat, q: nat)
    requires p <= |line|
    ensures p <= q <= |line| && (v, line[q..]) == Number(line[p..])
  {
    v, q := 0, p;
    while q < |line| && '0' <= line[q] <= '9'
      invariant p <= q <= |line| && ReadDec(line[q..], v) == ReadDec(line[p..], 0)
    {
      assert line[q..][1..] == line[q + 1..];
      v := (v * 10 + (line[q] - '0') as nat) % TWO32;
      q := q + 1;
    }
    if q < |line| && line[q] == ':' {
      assert line[q..][1..] == line[q + 1..];
      q := q + 1;
    }
  }

  method ParseLine(line: string) returns (e: Entry)
    ensures e == Parse(line)
  {
    hide Field, Number;
    assert line[0..] == line;
    var name, hash, home, shell;
    var uid, gid, p;
    name, p := ParseField(line, 0, NAME_MAX);
    hash, p := ParseField(line, p, HASH_MAX);
    uid, p := ParseNumber(line, p);
    gid, p := ParseNumber(line, p);
    home, p := ParseField(line, p, HOME_MAX);
    shell, p := ParseField(line, p, SHELL_MAX);
    e := Entry(name, hash, uid, gid, home, shell);
  }

  method ReadLine(data: string, pos: nat) returns (line: string, next: nat)
    requires pos <= |data|
    ensures line == LineAt(data, pos, LINE_MAX) && next == After(data, pos, |line|)
  {
    hide LineAt;
    line, next := "", pos;
    while next < |data| && data[next] != '\n' && |line| < LINE_MAX
      invariant pos <= next <= |data| && |line| <= LINE_MAX && |line| == next - pos
      invariant line + LineAt(data, next, LINE_MAX - |line|) == LineAt(data, pos, LINE_MAX)
    {
      LineGoesOn(data, next, LINE_MAX - |line|);
      Regroup(line, [data[next]], LineAt(data, next + 1, LINE_MAX - |line| - 1));
      line, next := line + [data[next]], next + 1;
    }
    LineStops(data, next, LINE_MAX - |line|);
    if next < |data| && data[next] == '\n' { next := next + 1; }
  }

  lemma LineGoesOn(data: string, pos: nat, room: nat)
    requires pos < |data| && data[pos] != '\n' && room > 0
    ensures LineAt(data, pos, room) == [data[pos]] + LineAt(data, pos + 1, room - 1)
  {
  }

  lemma LineStops(data: string, pos: nat, room: nat)
    requires pos <= |data| && (pos == |data| || data[pos] == '\n' || room == 0)
    ensures LineAt(data, pos, room) == ""
  {
  }

  // ---- The two calls ----

  // auth_verify; `etc` says whether the directory was found.
  method Verify(etc: bool, data: string, username: string, password: string) returns (r: int, user: User)
    requires Bytes(password)
    ensures r == if etc && Lookup(data, 0, username, HashOf(password)).Accepted? then 1 else 0
    ensures r == 1 ==> Lookup(data, 0, username, HashOf(password)) == Accepted(user)
  {
    user := User("", 0, 0, "", "");
    if !etc { return 0, user; }
    var inputHash := HashPassword(password);
    hide Parse, LineAt, HashOf;
    var pos := 0;
    while pos < |data|
      invariant 0 <= pos <= |data|
      invariant Lookup(data, pos, username, inputHash) == Lookup(data, 0, username, inputHash)
      decreases |data| - pos
    {
      LineAdvances(data, pos);
      var line;
      line, pos := ReadLine(data, pos);
      if line == "" || line[0] == '#' { continue; }
      var e := ParseLine(line);
      if e.name != username { continue; }
      if e.hash != "" && e.hash[0] == '!' { return 0, user; }
      var storedHash := FromHex(e.hash);
      if storedHash != inputHash { return 0, user; }
      return 1, User(e.name, e.uid, e.gid, e.home, e.shell);
    }
    return 0, user;
  }

  // auth_add_user, for records that fit its line buffer.  `granted` says whether kmalloc had room for
  // the new content, and `kept` whether sfs_write_file then could store it: it drops the old content
  // first, and its failure is not noticed.
  method AddUser(etc: bool, data: string, u: User, password: string, granted: bool, kept: bool) returns (r: int, data': string)
    requires Bytes(password) && |Print(u, HashOf(password))| < LINE_MAX
    ensures !etc || !granted ==> r == -1 && data' == data
    ensures etc && granted ==> r == 0 && data' == if kept then data + (Print(u, HashOf(password)) + "\n") else ""
  {
    if !etc { return -1, data; }
    var h := HashPassword(password);
    hide HashOf, Hex, Dec;
    var hash := ToHex(h);
    var uid := ToDec(u.uid);
    var gid := ToDec(u.gid);
    var line := new char[256];
    var n := Append(line, 0, u.name, ":");
    n := Append(line, n, hash, ":");
    n := Append(line, n, uid, ":");
    n := Append(line, n, gid, ":");
    n := Append(line, n, u.home, ":");
    n := Append(line, n, u.shell, "\n");
    PrintParts(u, h);
    if !granted { return -1, data; }
    return 0, if kept then data + line[..n] else "";
  }

  // A text and the character that ends it, if the text fits.
  method Append(line: array<char>, at: nat, text: string, end: string) returns (n: nat)
    requires line.Length == 256 && |end| == 1 && at + |text| <= 254
    modifies line
    ensures n == at + |text| + 1 && line[..n] == old(line[..at]) + text + end
  {
    n := at;
    var i := 0;
    while i < |text| && n < 254
      invariant 0 <= i <= |text| && n == at + i && line[..n] == old(line[..at]) + text[..i]
    {
      line[n] := text[i];
      n, i := n + 1, i + 1;
    }
    line[n] := end[0];
    n := n + 1;
  }

  lemma PrintParts(u: User, hash: nat)
    ensures [] + u.name + ":" + Hex(hash, 8) + ":" + Dec(u.uid) + ":" + Dec(u.gid) + ":" + u.home + ":" + u.shell + "\n"
      == Print(u, hash) + "\n"
  {
    hide Hex, Dec;
  }

  // A user that was added can log in with the same password and gets the same record, exactly when
  // the file had no record of the name before; but not if the file's last line swallows the record.
  method AddThenVerify(data: string, u: User, password: string) returns (r: int, user: User)
    requires LegalUser(u) && Bytes(password)
    ensures Whole(data) && Lookup(data, 0, u.name, HashOf(password)) == Absent ==> r == 1 && user == u
    ensures Whole(data) && Lookup(data, 0, u.name, HashOf(password)) == Refused ==> r == 0
    ensures Swallows(data[Unfinished(data, 0)..], u) && Lookup(data, 0, u.name, HashOf(password)) == Absent ==> r == 0
  {
    hide Print, Lookup, HashOf, LegalUser, Unfinished, Swallows;
    PrintFits(u, HashOf(password));
    var added, data' := AddUser(true, data, u, password, true, true);
    if Whole(data) { FoundInWhole(data, u, HashOf(password), HashOf(password)); }
    if Swallows(data[Unfinished(data, 0)..], u) && Lookup(data, 0, u.name, HashOf(password)) == Absent {
      LostInLastLine(data, u, HashOf(password), HashOf(password));
    }
    r, user := Verify(true, data', u.name, password);
  }

  // When sfs_write_file has no room the call still returns 0, and nobody can log in any more.
  method AddWithoutRoom(data: string, u: User, password: string, name: string, any: string) returns (added: int, r: int)
    requires LegalUser(u) && Bytes(password) && Bytes(any)
    ensures added == 0 && r == 0
  {
    hide Print, HashOf, LegalUser;
    PrintFits(u, HashOf(password));
    var data';
    added, data' := AddUser(true, data, u, password, true, false);
    var user;
    r, user := Verify(true, data', name, any);
  }
}
