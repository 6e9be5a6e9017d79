/**
 The variable table of mbf/mbf.c in memory: while names and values fit their entries it behaves
 as a list of variables, and what a longer value does to its neighbour.
 */
module MbfTable {
  import opened MbfLang

  predicate Text(s: string) {
    '\0' !in s
  }

  // Every name and value fits its entry.
  predicate Tidy(vars: seq<Var>) {
    forall i :: 0 <= i < |vars| ==> |vars[i].name| < NAME_SIZE && |vars[i].value| < VALUE_SIZE
  }

  predicate TableOk(m: Machine) {
    |m.mem| == TABLE_SIZE && m.count <= MAX_VARS
  }

  // ---- C strings in memory ----

  // s stands at p, followed by a terminator.
  predicate Stands(mem: seq<char>, p: nat, s: string) {
    p + |s| < |mem| && Text(s) && mem[p + |s|] == '\0' && forall k :: 0 <= k < |s| ==> mem[p + k] == s[k]
  }

  lemma {:induction false} CStringIs(mem: seq<char>, p: nat, s: string)
    requires Stands(mem, p, s)
    ensures CString(mem, p) == s
    decreases |s|
  {
    if s != "" {
      assert s[0] in s && mem[p + 0] == s[0];
      forall k | 0 <= k < |s[1..]| ensures mem[p + 1 + k] == s[1..][k] { assert mem[p + (k + 1)] == s[k + 1]; }
      CStringIs(mem, p + 1, s[1..]);
    }
  }

  lemma {:induction false} CStringText(mem: seq<char>, p: nat)
    ensures Text(CString(mem, p))
    decreases |mem| - p
  {
    if p < |mem| && mem[p] != '\0' { CStringText(mem, p + 1); }
  }

  // A string shorter than its place is terminated there.
  lemma {:induction false} CStringStands(mem: seq<char>, p: nat, size: nat)
    requires |CString(mem, p)| < size && p + size <= |mem|
    ensures Stands(mem, p, CString(mem, p))
    decreases size
  {
    if mem[p] != '\0' {
      var s := CString(mem, p);
      CStringStands(mem, p + 1, size - 1);
      forall k | 0 <= k < |s| ensures mem[p + k] == s[k] {
        if k > 0 { assert mem[p + 1 + (k - 1)] == s[1..][k - 1]; }
      }
    }
  }

  lemma PutReads(mem: seq<char>, p: nat, s: string)
    requires Text(s) && p + |s| < |mem|
    ensures CString(Put(mem, p, s), p) == s
  {
    CStringIs(Put(mem, p, s), p, s);
  }

  // Writing elsewhere leaves a string that fits its place.
  lemma PutKeeps(mem: seq<char>, p: nat, s: string, q: nat, size: nat)
    requires |CString(mem, q)| < size && q + size <= |mem|
    requires q + size <= p || p + |s| < q
    ensures CString(Put(mem, p, s), q) == CString(mem, q)
  {
    CStringStands(mem, q, size);
    CStringIs(Put(mem, p, s), q, CString(mem, q));
  }

  // ---- Storing what fits ----

  lemma ValueStored(mem: seq<char>, n: nat, i: nat, value: string)
    requires |mem| == TABLE_SIZE && i < n <= MAX_VARS && Tidy(Entries(mem, n)) && Text(value) && |value| < VALUE_SIZE
    ensures var r := Put(mem, ENTRY_SIZE * i + NAME_SIZE, value);
      Entries(r, n) == Entries(mem, n)[i := Var(NameAt(mem, i), value)]
  {
    var vars, p := Entries(mem, n), ENTRY_SIZE * i + NAME_SIZE;
    var r := Put(mem, p, value);
    PutReads(mem, p, value);
    forall j | 0 <= j < n ensures Entries(r, n)[j] == vars[i := Var(NameAt(mem, i), value)][j] {
      var v := vars[j];
      PutKeeps(mem, p, value, ENTRY_SIZE * j, NAME_SIZE);
      if j != i { PutKeeps(mem, p, value, ENTRY_SIZE * j + NAME_SIZE, VALUE_SIZE); }
    }
  }

  lemma NameStored(mem: seq<char>, n: nat, name: string)
    requires |mem| == TABLE_SIZE && n < MAX_VARS && Tidy(Entries(mem, n)) && Text(name) && |name| < NAME_SIZE
    ensures var r := Put(mem, ENTRY_SIZE * n, name); Entries(r, n) == Entries(mem, n) && NameAt(r, n) == name
  {
    var vars, p := Entries(mem, n), ENTRY_SIZE * n;
    PutReads(mem, p, name);
    forall j | 0 <= j < n ensures Entries(Put(mem, p, name), n)[j] == vars[j] {
      var v := vars[j];
      PutKeeps(mem, p, name, ENTRY_SIZE * j, NAME_SIZE);
      PutKeeps(mem, p, name, ENTRY_SIZE * j + NAME_SIZE, VALUE_SIZE);
    }
  }

  // Name and value of a new entry.
  lemma EntryStored(mem: seq<char>, n: nat, name: string, value: string)
    requires |mem| == TABLE_SIZE && n < MAX_VARS && Tidy(Entries(mem, n))
    requires Text(name) && |name| < NAME_SIZE && Text(value) && |value| < VALUE_SIZE
    ensures var r := Put(Put(mem, ENTRY_SIZE * n, name), ENTRY_SIZE * n + NAME_SIZE, value);
      Entries(r, n + 1) == Entries(mem, n) + [Var(name, value)]
  {
    var named, p := Put(mem, ENTRY_SIZE * n, name), ENTRY_SIZE * n + NAME_SIZE;
    NameStored(mem, n, name);
    var vars, r := Entries(named, n), Put(named, p, value);
    PutReads(named, p, value);
    PutKeeps(named, p, value, ENTRY_SIZE * n, NAME_SIZE);
    forall j | 0 <= j < n ensures Entries(r, n + 1)[j] == vars[j] {
      var v := vars[j];
      PutKeeps(named, p, value, ENTRY_SIZE * j, NAME_SIZE);
      PutKeeps(named, p, value, ENTRY_SIZE * j + NAME_SIZE, VALUE_SIZE);
    }
  }

  // A store that spills nothing is the list's.
  lemma PutVarAgrees(m: Machine, name: string, value: string)
    requires TableOk(m) && Tidy(Vars(m)) && Text(name) && Text(value) && !Spills(Vars(m), name, value)
    ensures var m' := PutVar(m, name, value);
      TableOk(m') && m'.trace == m.trace && m'.halted == m.halted && Vars(m') == VarSet(Vars(m), name, value) && Tidy(Vars(m'))
  {
    hide Put, NameAt, ValueAt;
    var i := IndexOf(Vars(m), name);
    if i < m.count {
      ValueStored(m.mem, m.count, i, value);
    } else if m.count < MAX_VARS {
      EntryStored(m.mem, m.count, name, value);
    }
  }

  // ---- Storing what does not fit ----

  // A value too long for its entry is cut off by the variable that comes next: it then reads as its
  // first 128 characters and that variable's name.
  lemma NextNameCutsValue(mem: seq<char>, n: nat, value: string, name: string, next: string)
    requires |mem| == TABLE_SIZE && 0 < n < MAX_VARS && VALUE_SIZE <= |value| && Text(value)
    requires Text(name) && |name| < NAME_SIZE && Text(next)
    ensures var spilled := Put(mem, ENTRY_SIZE * (n - 1) + NAME_SIZE, value);
      var r := Put(Put(spilled, ENTRY_SIZE * n, name), ENTRY_SIZE * n + NAME_SIZE, next);
      ValueAt(r, n - 1) == value[..VALUE_SIZE] + name
  {
    var p := ENTRY_SIZE * (n - 1) + NAME_SIZE;
    var r := Put(Put(Put(mem, p, value), ENTRY_SIZE * n, name), ENTRY_SIZE * n + NAME_SIZE, next);
    var s := value[..VALUE_SIZE] + name;
    forall c | c in s ensures c != '\0' { if c in value[..VALUE_SIZE] { assert c in value; } }
    CStringIs(r, p, s);
  }
}
