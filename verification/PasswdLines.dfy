/**
 Lines of /etc/passwd that are not plain records (the reading loop of auth_verify in auth/auth.c):
 comments, which are cut into lines of 255 characters like everything else, locked accounts, and a
 record appended behind a line without its newline.
 */
module PasswdLines {
  import opened PasswdFormat

  // ---- Reading does not depend on what stands in front ----

  lemma {:induction false} LineShifts(front: string, s: string, pos: nat, room: nat)
    requires pos <= |s|
    ensures LineAt(front + s, |front| + pos, room) == LineAt(s, pos, room)
    decreases room
  {
    if room > 0 && pos < |s| && s[pos] != '\n' {
      assert (front + s)[|front| + pos] == s[pos];
      LineShifts(front, s, pos + 1, room - 1);
    }
  }

  predicate Passed(line: string, name: string) {
    Skipped(line) || Parse(line).name != name
  }

  lemma LookupOnce(data: string, pos: nat, line: string, name: string, hash: nat)
    requires pos < |data| && line == LineAt(data, pos, LINE_MAX)
    ensures Lookup(data, pos, name, hash) ==
      if Passed(line, name) then Lookup(data, After(data, pos, |line|), name, hash) else Judge(Parse(line), hash)
  {
    LineAdvances(data, pos);
    hide Parse, LineAt, Judge, Skipped, After;
  }

  lemma {:induction false} LookupShifts(front: string, s: string, pos: nat, name: string, hash: nat)
    requires pos <= |s|
    ensures Lookup(front + s, |front| + pos, name, hash) == Lookup(s, pos, name, hash)
    decreases |s| - pos
  {
    hide Parse, LineAt, Judge, Skipped, Passed;
    if pos < |s| {
      var line := LineAt(s, pos, LINE_MAX);
      LineShifts(front, s, pos, LINE_MAX);
      LineAdvances(s, pos);
      AfterShifts(front, s, pos, |line|);
      hide Lookup, After;
      LookupOnce(s, pos, line, name, hash);
      LookupOnce(front + s, |front| + pos, line, name, hash);
      LookupShifts(front, s, After(s, pos, |line|), name, hash);
    }
  }

  lemma AfterShifts(front: string, s: string, pos: nat, n: nat)
    requires pos + n <= |s|
    ensures After(front + s, |front| + pos, n) == |front| + After(s, pos, n)
  {
  }

  // ---- Comments ----

  // What a reader sees behind a comment: the part of it that did not fit its line buffer, if any.
  function Behind(comment: string, after: string): string {
    if |comment| <= LINE_MAX then after else comment[LINE_MAX..] + ("\n" + after)
  }

  lemma {:induction false} CutLine(data: string, pos: nat, line: string, room: nat)
    requires pos + |line| < |data| && data[pos..pos + |line|] == line && data[pos + |line|] == '\n' && '\n' !in line
    ensures LineAt(data, pos, room) == if |line| <= room then line else line[..room]
    decreases room
  {
    if line != "" && room > 0 {
      assert data[pos] == line[0] && line[0] in line;
      assert data[pos + 1..pos + 1 + |line[1..]|] == line[1..];
      assert forall c :: c in line[1..] ==> c in line;
      CutLine(data, pos + 1, line[1..], room - 1);
    }
  }

  lemma FirstComment(comment: string, after: string, name: string, hash: nat)
    requires comment != "" && comment[0] == '#' && '\n' !in comment
    ensures Lookup(comment + ("\n" + after), 0, name, hash) == Lookup(Behind(comment, after), 0, name, hash)
  {
    var data := comment + ("\n" + after);
    CutLine(data, 0, comment, LINE_MAX);
    LookupOnce(data, 0, LineAt(data, 0, LINE_MAX), name, hash);
    hide Lookup, LineAt;
    if |comment| <= LINE_MAX {
      assert data == (comment + "\n") + after && data[|comment|] == '\n';
      LookupShifts(comment + "\n", after, 0, name, hash);
    } else {
      CommentCut(comment, after);
      LookupShifts(comment[..LINE_MAX], Behind(comment, after), 0, name, hash);
    }
  }

  lemma CommentCut(comment: string, after: string)
    requires |comment| > LINE_MAX && '\n' !in comment
    ensures comment + ("\n" + after) == comment[..LINE_MAX] + Behind(comment, after)
    ensures (comment + ("\n" + after))[LINE_MAX] != '\n'
  {
    assert comment == comment[..LINE_MAX] + comment[LINE_MAX..];
    assert comment[LINE_MAX] in comment;
  }

  // Anywhere in a file, a comment counts for what is behind its first 255 characters and nothing else.
  lemma CommentSkipped(before: string, comment: string, after: string, name: string, hash: nat)
    requires Complete(before) && comment != "" && comment[0] == '#' && '\n' !in comment
    ensures Lookup(before + (comment + ("\n" + after)), 0, name, hash) == Lookup(before + Behind(comment, after), 0, name, hash)
  {
    hide Lookup, Behind;
    var tail, rest := comment + ("\n" + after), Behind(comment, after);
    LookupAppended(before, tail, 0, name, hash);
    LookupAppended(before, rest, 0, name, hash);
    LookupShifts(before, tail, 0, name, hash);
    LookupShifts(before, rest, 0, name, hash);
    FirstComment(comment, after, name, hash);
  }

  // So a record that stands in a comment behind 255 characters is a record.
  lemma LongCommentIsRecord(dots: string, u: User, hash: nat)
    requires |dots| == LINE_MAX - 1 && '\n' !in dots && LegalUser(u) && hash < TWO32
    ensures Lookup("#" + dots + Print(u, hash) + "\n", 0, u.name, hash) == Accepted(u)
  {
    hide Print, Lookup;
    var record := Print(u, hash);
    var comment := "#" + dots + record;
    assert '\n' !in "#" && '\n' !in record && record != "" by { PrintShape(u, hash); }
    assert comment + ("\n" + "") == "#" + dots + record + "\n" && comment[LINE_MAX..] == record;
    FirstComment(comment, "", u.name, hash);
    LastRecord("", u, hash, hash);
    assert "" + (record + "\n") == record + ("\n" + "");
  }

  // ---- Appending to any file ----

  // Where the reader starts a line that the end of the file cuts off; the end itself if there is none.
  function Unfinished(data: string, pos: nat): (q: nat)
    requires pos <= |data|
    ensures pos <= q <= |data| && (pos < |data| && q == pos ==> LineAt(data, pos, LINE_MAX) == data[pos..])
    decreases |data| - pos
  {
    if pos == |data| then pos
    else
      var n := |LineAt(data, pos, LINE_MAX)|;
      LineAdvances(data, pos);
      LineIs(data, pos, LINE_MAX);
      if pos + n == |data| && n < LINE_MAX then pos else Unfinished(data, After(data, pos, n))
  }

  predicate Whole(data: string) {
    Unfinished(data, 0) == |data|
  }

  lemma {:induction false} LineIs(data: string, pos: nat, room: nat)
    requires pos <= |data|
    ensures var line := LineAt(data, pos, room);
      line == data[pos..pos + |line|] && '\n' !in line
      && (|line| == room || pos + |line| == |data| || data[pos + |line|] == '\n')
    decreases room
  {
    if room > 0 && pos < |data| && data[pos] != '\n' { LineIs(data, pos + 1, room - 1); }
  }

  // Every line from pos to the unfinished one is of another name or no record.
  predicate Reaches(data: string, pos: nat, name: string)
    requires pos <= |data|
    decreases |data| - pos
  {
    pos == Unfinished(data, pos) ||
    (var line := LineAt(data, pos, LINE_MAX);
     LineAdvances(data, pos);
     Passed(line, name) && Reaches(data, After(data, pos, |line|), name))
  }

  lemma FinishedStays(data: string, more: string, pos: nat)
    requires pos < |data| && Unfinished(data, pos) != pos && (more == "" || more[0] != '\n')
    ensures var line := LineAt(data, pos, LINE_MAX);
      LineAt(data + more, pos, LINE_MAX) == line && After(data + more, pos, |line|) == After(data, pos, |line|)
      && Unfinished(data, pos) == Unfinished(data, After(data, pos, |line|))
  {
    var line := LineAt(data, pos, LINE_MAX);
    LineIs(data, pos, LINE_MAX);
    StartStays(data, more, pos, LINE_MAX);
    hide LineAt;
  }

  lemma {:induction false} StartStays(data: string, more: string, pos: nat, room: nat)
    requires pos <= |data| && (pos + |LineAt(data, pos, room)| < |data| || |LineAt(data, pos, room)| == room)
    ensures LineAt(data + more, pos, room) == LineAt(data, pos, room)
    decreases room
  {
    if room > 0 && data[pos] != '\n' { StartStays(data, more, pos + 1, room - 1); }
  }

  // What is appended to any file is read together with the file's unfinished line, unless an earlier
  // line has decided.
  lemma {:induction false} AppendedAnywhere(data: string, more: string, pos: nat, name: string, hash: nat)
    requires pos <= |data| && (more == "" || more[0] != '\n')
    ensures Lookup(data + more, pos, name, hash) ==
      if Reaches(data, pos, name) then Lookup(data[Unfinished(data, pos)..] + more, 0, name, hash)
      else Lookup(data, pos, name, hash)
    ensures !Reaches(data, pos, name) ==> Lookup(data, pos, name, hash) != Absent
    decreases |data| - pos
  {
    hide Parse, LineAt, Judge, Skipped, Passed;
    var q := Unfinished(data, pos);
    if q == pos {
      hide Lookup;
      assert data + more == data[..q] + (data[q..] + more);
      LookupShifts(data[..q], data[q..] + more, 0, name, hash);
    } else {
      var line := LineAt(data, pos, LINE_MAX);
      FinishedStays(data, more, pos);
      LineAdvances(data, pos);
      hide Lookup, Unfinished, After;
      LookupOnce(data, pos, line, name, hash);
      LookupOnce(data + more, pos, line, name, hash);
      JudgeDecides(line, hash);
      if Passed(line, name) { AppendedAnywhere(data, more, After(data, pos, |line|), name, hash); }
    }
  }

  lemma JudgeDecides(line: string, hash: nat)
    ensures Judge(Parse(line), hash) != Absent
  {
    hide Parse;
  }

  // If the file has no unfinished line, a new name is found with the new record and an old one is not
  // affected, as in a file that ends with a newline.
  lemma FoundInWhole(data: string, u: User, hash: nat, asked: nat)
    requires Whole(data) && LegalUser(u) && hash < TWO32
    ensures Lookup(data + (Print(u, hash) + "\n"), 0, u.name, asked) ==
      if Lookup(data, 0, u.name, asked) != Absent then Lookup(data, 0, u.name, asked)
      else if asked == hash then Accepted(u) else Refused
  {
    var more := Print(u, hash) + "\n";
    RecordStarts(u, hash);
    hide Lookup, Print, Reaches, Unfinished;
    AppendedAnywhere(data, more, 0, u.name, asked);
    AppendedAnywhere(data, "", 0, u.name, asked);
    assert data + "" == data && data[|data|..] == "" && "" + more == more && "" + "" == "";
    NothingFound(u.name, asked);
    LastRecord("", u, hash, asked);
  }

  lemma NothingFound(name: string, hash: nat)
    ensures Lookup("", 0, name, hash) == Absent
  {
  }

  lemma RecordStarts(u: User, hash: nat)
    requires LegalUser(u)
    ensures Print(u, hash) != "" && Print(u, hash)[0] != '\n' && '\n' !in Print(u, hash)
  {
    PrintShape(u, hash);
  }

  // A file that ends with a newline has no unfinished line.
  lemma {:induction false} CompleteIsWhole(data: string, pos: nat)
    requires Complete(data) && pos <= |data|
    ensures Unfinished(data, pos) == |data|
    decreases |data| - pos
  {
    if pos < |data| {
      LineInFront(data, "", pos, LINE_MAX);
      LineAdvances(data, pos);
      hide LineAt;
      CompleteIsWhole(data, After(data, pos, |LineAt(data, pos, LINE_MAX)|));
    }
  }

  // A record added behind an unfinished comment, or behind some characters of another field, is lost.
  predicate Swallows(chunk: string, u: User) {
    0 < |chunk| < 90 && (chunk[0] == '#' || (FieldText(chunk) && |chunk| + |u.name| < NAME_MAX))
  }

  lemma LostInLastLine(data: string, u: User, hash: nat, asked: nat)
    requires LegalUser(u) && hash < TWO32 && Swallows(data[Unfinished(data, 0)..], u)
    requires Lookup(data, 0, u.name, asked) == Absent
    ensures Lookup(data + (Print(u, hash) + "\n"), 0, u.name, asked) == Absent
  {
    var more, q := Print(u, hash) + "\n", Unfinished(data, 0);
    RecordStarts(u, hash);
    ChunkIsLine(data, 0);
    hide Lookup, Print, Reaches, Unfinished, Swallows;
    AppendedAnywhere(data, more, 0, u.name, asked);
    JoinedLine(data[q..], u, hash, asked);
  }

  lemma {:induction false} ChunkIsLine(data: string, pos: nat)
    requires pos <= |data|
    ensures '\n' !in data[Unfinished(data, pos)..]
    decreases |data| - pos
  {
    if pos < |data| {
      LineIs(data, pos, LINE_MAX);
      LineAdvances(data, pos);
      hide LineAt;
      if Unfinished(data, pos) != pos { ChunkIsLine(data, After(data, pos, |LineAt(data, pos, LINE_MAX)|)); }
    }
  }

  lemma JoinedLine(chunk: string, u: User, hash: nat, asked: nat)
    requires LegalUser(u) && Swallows(chunk, u) && '\n' !in chunk
    ensures Lookup(chunk + (Print(u, hash) + "\n"), 0, u.name, asked) == Absent
  {
    var line := chunk + Print(u, hash);
    RecordStarts(u, hash);
    PrintFits(u, hash);
    NothingFound(u.name, asked);
    assert chunk + (Print(u, hash) + "\n") == line + ("\n" + "");
    if chunk[0] == '#' {
      hide Lookup, Print;
      FirstComment(line, "", u.name, asked);
    } else {
      JoinedName(chunk, u, hash);
      hide Lookup, Print, Parse, FieldText, LegalUser;
      OneLinePast(line, u.name, asked);
    }
  }

  lemma JoinedName(chunk: string, u: User, hash: nat)
    requires LegalUser(u) && FieldText(chunk) && 0 < |chunk| && |chunk| + |u.name| < NAME_MAX
    ensures Parse(chunk + Print(u, hash)).name == chunk + u.name != u.name
  {
    var rest := Hex(hash, 8) + (":" + (Dec(u.uid) + (":" + (Dec(u.gid) + (":" + (u.home + (":" + u.shell)))))));
    assert chunk + Print(u, hash) == (chunk + u.name) + (":" + rest);
    assert FieldText(chunk + u.name);
    hide FieldText, Field, Number, Print;
    FieldReads(chunk + u.name, rest, NAME_MAX);
  }

  lemma OneLinePast(line: string, name: string, asked: nat)
    requires 0 < |line| <= LINE_MAX && '\n' !in line && Parse(line).name != name
    ensures Lookup(line + ("\n" + ""), 0, name, asked) == Absent
  {
    hide Parse, Judge;
    var data := line + ("\n" + "");
    CutLine(data, 0, line, LINE_MAX);
    LookupOnce(data, 0, line, name, asked);
  }

  // ---- Locked accounts ----

  // A name whose first record has a hash that starts with an exclamation mark is refused, whatever
  // password is given.
  lemma LockedIsRefused(before: string, line: string, name: string, hash: string, rest: string, after: string, asked: nat)
    requires line == name + (":" + (hash + (":" + rest))) && |line| <= LINE_MAX && '\n' !in rest
    requires FieldText(name) && |name| < NAME_MAX && (name != "" ==> name[0] != '#')
    requires FieldText(hash) && 0 < |hash| < HASH_MAX && hash[0] == '!'
    requires Complete(before) && Lookup(before, 0, name, asked) == Absent
    ensures Lookup(before + (line + ("\n" + after)), 0, name, asked) == Refused
  {
    LockedLine(name, hash, rest, asked);
    OneLine(name, hash, rest);
    hide Lookup, FieldText, Judge, Parse, Skipped;
    FirstDecides(line, after, name, asked);
    var tail := line + ("\n" + after);
    LookupAppended(before, tail, 0, name, asked);
    LookupShifts(before, tail, 0, name, asked);
  }

  lemma FirstDecides(line: string, after: string, name: string, asked: nat)
    requires '\n' !in line && |line| <= LINE_MAX && !Skipped(line) && Parse(line).name == name
    ensures Lookup(line + ("\n" + after), 0, name, asked) == Judge(Parse(line), asked)
  {
    hide Parse, Judge, Skipped, Lookup;
    var data := line + ("\n" + after);
    CutLine(data, 0, line, LINE_MAX);
    LookupHere(data, 0, name, asked);
  }

  lemma OneLine(name: string, hash: string, rest: string)
    requires FieldText(name) && FieldText(hash) && '\n' !in rest && (name != "" ==> name[0] != '#')
    ensures var line := name + (":" + (hash + (":" + rest))); '\n' !in line && !Skipped(line)
  {
    assert '\n' !in name && '\n' !in hash && '\n' !in ":";
    hide FieldText;
    var line := name + (":" + (hash + (":" + rest)));
    if name == "" { assert line[0] == ':'; } else { assert line[0] == name[0]; }
  }

  lemma LockedLine(name: string, hash: string, rest: string, asked: nat)
    requires FieldText(name) && |name| < NAME_MAX && FieldText(hash) && 0 < |hash| < HASH_MAX && hash[0] == '!'
    ensures var e := Parse(name + (":" + (hash + (":" + rest)))); e.name == name && Judge(e, asked) == Refused
  {
    hide FieldText, Field, Number;
    FieldReads(name, hash + (":" + rest), NAME_MAX);
    FieldReads(hash, rest, HASH_MAX);
  }

  // ---- A record written out ----

  lemma PrintExample()
    ensures Print(User("ann", 7, 10, "/h", "/s"), 0x1a) == "ann:" + ("0000001a:" + ("7:" + ("10:" + ("/h:" + "/s"))))
  {
    ExampleHex();
    assert Dec(7) == "7" && Dec(10) == "1" + "0" && "1" + "0" == "10";
    hide Hex, Dec;
    var r5 := "/s";
    var r4 := "/h" + (":" + r5);
    var r3 := "10" + (":" + r4);
    var r2 := "7" + (":" + r3);
    var r1 := "0000001a" + (":" + r2);
    Closed("/h", "/h:", r5);
    Closed("10", "10:", r4);
    Closed("7", "7:", r3);
    Closed("0000001a", "0000001a:", r2);
    Closed("ann", "ann:", r1);
  }

  lemma Closed(field: string, text: string, rest: string)
    requires text == field + ":"
    ensures field + (":" + rest) == text + rest
  {
  }

  lemma ExampleHex()
    ensures Hex(0x1a, 8) == "0000001a"
  {
    assert Hex(0, 0) == "" && HexDigit(0) == '0' && HexDigit(1) == '1' && HexDigit(10) == 'a';
    hide Hex, HexDigit;
    NextDigit(0, 1, "", "0");
    NextDigit(0, 2, "0", "00");
    NextDigit(0, 3, "00", "000");
    NextDigit(0, 4, "000", "0000");
    NextDigit(0, 5, "0000", "00000");
    NextDigit(0, 6, "00000", "000000");
    NextDigit(1, 7, "000000", "0000001");
    NextDigit(26, 8, "0000001", "0000001a");
  }

  lemma NextDigit(v: nat, k: nat, s: string, t: string)
    requires k > 0 && Hex(v / 16, k - 1) == s && t == s + [HexDigit(v % 16)]
    ensures Hex(v, k) == t
  {
  }
}
