/**
 The in-memory file system of fs/sfs.c: an object over the node pool and the used flags.
 Node pointers are pool indices; whether kmalloc had room for a file's data is an argument.
 */
module ScorpionFs {
  import opened FsTree
  import opened FsPaths

  const NAME_MAX: nat := 64

  function Blank(): Node {
    Node("", false, [], NULL, NULL, NULL)
  }

  // A name that a path can carry through a C string.
  ghost predicate Spellable(name: string) {
    Legal(name) && '\0' !in name
  }

  // Every name fits the source's field for it.
  ghost predicate ShortNames(fs: Fs)
    requires Sized(fs)
  {
    forall i :: Used(fs, i) ==> |fs.pool[i].name| < NAME_MAX
  }

  class FileSystem {
    const pool: array<Node>
    const used: array<bool>
    ghost var kids: seq<seq<int>>
    ghost var depth: seq<nat>

    ghost function State(): Fs
      reads this, pool, used
    {
      Fs(pool[..], used[..], kids, depth)
    }

    ghost predicate Valid()
      reads this, pool, used
    {
      Tree(State()) && ShortNames(State())
    }

    // The lowest free slot, marked used and cleared; NULL when the pool is full.
    method AllocNode() returns (n: int)
      requires pool.Length == used.Length == MAX_NODES
      modifies pool, used
      ensures n == NULL ==> (forall i :: 0 <= i < MAX_NODES ==> old(used[i])) && pool[..] == old(pool[..]) && used[..] == old(used[..])
      ensures n != NULL ==>
        && 0 <= n < MAX_NODES && !old(used[n]) && (forall i :: 0 <= i < n ==> old(used[i]))
        && used[..] == old(used[..])[n := true] && pool[..] == old(pool[..])[n := Blank()]
    {
      for i := 0 to MAX_NODES
        invariant forall j :: 0 <= j < i ==> used[j]
        invariant pool[..] == old(pool[..]) && used[..] == old(used[..])
      {
        if !used[i] {
          used[i] := true;
          pool[i] := Blank();
          return i;
        }
      }
      return NULL;
    }

    // The directory's child of this name, by walking the sibling links.
    method FindChildByName(dir: int, name: string) returns (k: int)
      requires Valid() && (dir == NULL || Used(State(), dir))
      ensures k == FindChild(State(), dir, name)
    {
      if dir == NULL || !pool[dir].isDir { return NULL; }
      ghost var ks, j := kids[dir], 0;
      KidsInRange(State(), dir);
      SizedTree(State());
      assert FindChild(State(), dir, name) == FindIn(pool[..], ks, 0, name);
      hide ChildrenOf, Tree, FindIn, FindChild;
      k := pool[dir].child;
      while k != NULL
        invariant 0 <= j <= |ks| && k == (if j < |ks| then ks[j] else NULL)
        invariant FindIn(pool[..], ks, j, name) == FindIn(pool[..], ks, 0, name)
        decreases |ks| - j
      {
        assert NextIs(pool[..], ks, j);
        FindInStep(pool[..], ks, j, name);
        if pool[k].name == name { return; }
        k := pool[k].next;
        j := j + 1;
      }
      FindInEnd(pool[..], ks, name);
    }

    // dir_add_child: the new node goes to the front of the list.
    method DirAddChild(dir: int, n: int)
      requires 0 <= dir < pool.Length && 0 <= n < pool.Length && dir != n
      modifies pool
      ensures pool[..] == old(pool[..])[n := old(pool[n]).(parent := dir, next := old(pool[dir].child))]
                                       [dir := old(pool[dir]).(child := n)]
    {
      pool[n] := pool[n].(parent := dir);
      pool[n] := pool[n].(next := pool[dir].child);
      pool[dir] := pool[dir].(child := n);
    }

    // The common part of sfs_mkdir and sfs_create_file.
    method AddNode(parent: int, node: Node) returns (n: int)
      requires Valid() && Used(State(), parent) && |node.name| < NAME_MAX
      modifies this`kids, this`depth, pool, used
      ensures Valid()
      ensures n == NULL <==> FindChild(old(State()), parent, node.name) != NULL || forall i :: 0 <= i < MAX_NODES ==> old(used[i])
      ensures n == NULL ==> State() == old(State())
      ensures n != NULL ==> CanAdd(old(State()), parent, n, node) && State() == Added(old(State()), parent, n, node)
      ensures n != NULL ==> forall i :: 0 <= i < n ==> old(used[i])
    {
      hide Tree, FindChild;
      ghost var fs := State();
      SizedTree(fs);
      var k := FindChildByName(parent, node.name);
      if k != NULL { return NULL; }
      n := AllocNode();
      if n == NULL { return; }
      pool[n] := pool[n].(name := node.name, isDir := node.isDir, data := node.data);
      DirAddChild(parent, n);
      kids := kids[n := []][parent := [n] + kids[parent]];
      depth := depth[n := depth[parent] + 1];
      assert State() == Added(fs, parent, n, node);
      AddKeepsTree(fs, parent, n, node);
      AddKeepsShort(fs, parent, n, node);
    }

    method Mkdir(parent: int, name: string) returns (n: int)
      requires Valid() && Used(State(), parent) && |name| < NAME_MAX
      modifies this`kids, this`depth, pool, used
      ensures Valid()
      ensures n == NULL <==> FindChild(old(State()), parent, name) != NULL || forall i :: 0 <= i < MAX_NODES ==> old(used[i])
      ensures n == NULL ==> State() == old(State())
      ensures n != NULL ==> var node := Node(name, true, [], NULL, NULL, NULL);
        CanAdd(old(State()), parent, n, node) && State() == Added(old(State()), parent, n, node)
      ensures n != NULL ==> forall i :: 0 <= i < n ==> old(used[i])
    {
      n := AddNode(parent, Node(name, true, [], NULL, NULL, NULL));
    }

    // `granted` says whether kmalloc had room for the data; without it the file stays empty.
    method CreateFile(parent: int, name: string, data: seq<byte>, granted: bool) returns (n: int)
      requires Valid() && Used(State(), parent) && |name| < NAME_MAX
      modifies this`kids, this`depth, pool, used
      ensures Valid()
      ensures n == NULL <==> FindChild(old(State()), parent, name) != NULL || forall i :: 0 <= i < MAX_NODES ==> old(used[i])
      ensures n == NULL ==> State() == old(State())
      ensures n != NULL ==> var node := Node(name, false, if granted then data else [], NULL, NULL, NULL);
        CanAdd(old(State()), parent, n, node) && State() == Added(old(State()), parent, n, node)
    {
      n := AddNode(parent, Node(name, false, if granted then data else [], NULL, NULL, NULL));
    }

    method WriteFile(parent: int, name: string, data: seq<byte>, granted: bool) returns (n: int)
      requires Valid() && Used(State(), parent) && |name| < NAME_MAX
      modifies this`kids, this`depth, pool, used
      ensures Valid()
      ensures var found := FindChild(old(State()), parent, name);
        var stored := if granted then data else [];
        var node := Node(name, false, stored, NULL, NULL, NULL);
        if found != NULL then n == found && State() == Rewritten(old(State()), found, stored)
        else if n == NULL then State() == old(State()) && forall i :: 0 <= i < MAX_NODES ==> old(used[i])
        else CanAdd(old(State()), parent, n, node) && State() == Added(old(State()), parent, n, node)
    {
      hide Tree, FindChild;
      ghost var fs := State();
      SizedTree(fs);
      n := FindChildByName(parent, name);
      if n == NULL {
        n := CreateFile(parent, name, data, granted);
        return;
      }
      if pool[n].data != [] { pool[n] := pool[n].(data := []); }
      if data != [] && granted { pool[n] := pool[n].(data := data); }
      RewriteKeepsTree(fs, n, if granted then data else []);
      RewriteKeepsShort(fs, n, if granted then data else []);
      assert pool[..] == Rewritten(fs, n, if granted then data else []).pool;
    }

    // Unlink a childless node from its siblings and give its slot back.
    method Delete(node: int) returns (r: int, ghost j: nat)
      requires Valid() && (node == NULL || (Used(State(), node) && kids[node] == []))
      modifies this`kids, pool, used
      ensures Valid()
      ensures node == NULL || node == 0 ==> r == -1 && State() == old(State())
      ensures node != NULL && node != 0 ==> r == 0 && CanRemove(old(State()), node, j) && State() == Removed(old(State()), node, j)
    {
      hide Tree, Linked, ChildrenOf, ShortNames;
      ghost var fs := State();
      SizedTree(fs);
      j := 0;
      if node == NULL || pool[node].parent == NULL {
        if node != NULL { ParentOfUsed(fs, node); }
        return -1, 0;
      }
      ParentOfUsed(fs, node);
      var parent := pool[node].parent;
      KidsInRange(fs, parent);
      FirstChild(fs, parent);
      j := IndexIn(fs.kids[parent], node);
      if pool[parent].child == node {
        pool[parent] := pool[parent].(child := pool[node].next);
      } else {
        var prev := PreviousSibling(parent, node, j);
        if prev != NULL { pool[prev] := pool[prev].(next := pool[node].next); }
      }
      FreeNode(node);
      kids := kids[parent := Without(kids[parent], j)];
      RemoveKeepsTree(fs, node, j);
      RemoveKeepsShort(fs, node, j);
      return 0, j;
    }

    method PreviousSibling(parent: int, node: int, ghost j: nat) returns (prev: int)
      requires Valid() && Used(State(), parent) && 0 < j < |kids[parent]| && kids[parent][j] == node
      requires forall x :: 0 <= x < j ==> kids[parent][x] != node
      ensures prev == kids[parent][j - 1]
    {
      ghost var ks, x := kids[parent], 0;
      KidsInRange(State(), parent);
      hide Tree;
      prev := pool[parent].child;
      while prev != NULL && pool[prev].next != node
        invariant 0 <= x < j && prev == ks[x]
        decreases j - x
      {
        assert NextIs(pool[..], ks, x);
        prev := pool[prev].next;
        x := x + 1;
        assert NextIs(pool[..], ks, x);
      }
      assert NextIs(pool[..], ks, x);
    }

    method FreeNode(n: int)
      requires used.Length == MAX_NODES && 0 <= n < MAX_NODES
      modifies used
      ensures used[..] == old(used[..])[n := false]
    {
      for i := 0 to MAX_NODES
        invariant used[..] == old(used[..]) && i <= n
      {
        if i == n {
          used[i] := false;
          return;
        }
      }
    }

    // Empty the pool, then make the root and the default entries.
    method Init(granted: bool)
      requires pool.Length == used.Length == MAX_NODES
      modifies this`kids, this`depth, pool, used
      ensures Valid() && AllOnDirs(State()) && BareDirs(State())
      ensures forall p :: Get(State(), p) == DefaultView(p, granted)
    {
      hide Tree, Flat, FindChild, DefaultView;
      MakeRoot();
      assert DefaultDirs()[..0] == [] && DefaultDirs()[..5] == DefaultDirs();
      MakeDefault("bin", 0);
      MakeDefault("etc", 1);
      MakeDefault("modules", 2);
      MakeDefault("tmp", 3);
      MakeDefault("dev", 4);
      MakeVersion(granted);
    }

    method MakeVersion(granted: bool)
      requires Valid() && Flat(State(), DefaultDirs())
      modifies this`kids, this`depth, pool, used
      ensures Valid() && AllOnDirs(State()) && BareDirs(State())
      ensures forall p :: Get(State(), p) == DefaultView(p, granted)
    {
      ghost var fs := State();
      SizedTree(fs);
      FlatEtc(fs);
      hide Tree, Flat, FindChild, DefaultView;
      var etc := FindChildByName(0, "etc");
      if etc != NULL {
        var n := WriteFile(etc, "version", VersionText(), granted);
        VersionAdded(fs, State(), etc, n, granted);
      }
    }

    method MakeRoot()
      requires pool.Length == used.Length == MAX_NODES
      modifies this`kids, this`depth, pool, used
      ensures Valid() && Flat(State(), [])
    {
      for i := 0 to MAX_NODES
        invariant forall j :: 0 <= j < i ==> !used[j]
      {
        used[i] := false;
      }
      assert !used[0];
      var root := AllocNode();
      pool[root] := Node("/", true, [], NULL, NULL, NULL);
      kids, depth := seq(MAX_NODES, _ => []), seq(MAX_NODES, _ => 0);
      assert root == 0 && forall i :: Used(State(), i) <==> i == 0;
      assert ShortNames(State());
      hide Tree, Flat;
      LoneRoot(State());
    }

    method MakeDefault(name: string, ghost k: nat)
      requires Valid() && k < 5 && name == DefaultDirs()[k] && Flat(State(), DefaultDirs()[..k])
      modifies this`kids, this`depth, pool, used
      ensures Valid() && Flat(State(), DefaultDirs()[..k + 1])
    {
      hide Tree, Flat, FindChild, Added, DefaultDirs;
      NewDefault(k);
      ghost var fs, made := State(), DefaultDirs()[..k];
      SizedTree(fs);
      FlatRoot(fs, made, name);
      var n := Mkdir(0, name);
      FlatGrows(fs, made, n, Node(name, true, [], NULL, NULL, NULL));
    }

    constructor ()
      ensures Valid() && AllOnDirs(State()) && fresh(pool) && fresh(used)
      ensures forall p :: Get(State(), p) == DefaultView(p, true)
    {
      pool, used := new Node[MAX_NODES], new bool[MAX_NODES];
      new;
      Init(true);
    }

    // sfs_resolve, for paths whose components fit its buffer.
    method Resolve(cwd: int, path: string) returns (cur: int)
      requires Valid() && Used(State(), cwd) && '\0' !in path
      requires forall p :: 0 <= p <= |path| ==> ComponentEnd(path, p) - p < NAME_MAX
      ensures cur == Resolved(State(), cwd, path)
    {
      hide Tree, Step, ComponentEnd, FindChild;
      SizedTree(State());
      cur := if path != "" && path[0] == '/' then 0 else cwd;
      if path == "/" { return; }
      var buf := new char[NAME_MAX];
      var p := if path != "" && path[0] == '/' then 1 else 0;
      assert Walk(State(), cur, path, p) == Resolved(State(), cwd, path);
      hide Walk, Resolved;
      while p < |path|
        invariant 0 <= p <= |path| && Valid() && Used(State(), cur) && fresh(buf)
        invariant Walk(State(), cur, path, p) == Resolved(State(), cwd, path)
        decreases |path| - p
      {
        ghost var from, start := cur, p;
        WalkStep(State(), cur, path, p);
        var i;
        i, p := NextComponent(path, p, buf);
        cur := Enter(cur, buf, i, path[start..start + i]);
        if cur == NULL { return; }
      }
    }

    // Follow the component in buf[..i].
    method Enter(cur: int, buf: array<char>, i: nat, ghost comp: string) returns (next: int)
      requires Valid() && Used(State(), cur) && i < buf.Length == NAME_MAX && buf[..i] == comp
      requires buf[i] == '\0' && '\0' !in comp
      ensures next == Step(State(), cur, comp)
    {
      SizedTree(State());
      DotTests(buf[..], i, comp);
      hide Tree, FindChild;
      if i == 0 || (buf[0] == '.' && buf[1] == '\0') { return cur; }
      assert buf[0] == comp[0];
      if buf[0] == '.' && buf[1] == '.' && buf[2] == '\0' {
        if pool[cur].parent != NULL {
          ParentUsed(State(), cur);
          return pool[cur].parent;
        }
        return cur;
      }
      next := FindChildByName(cur, buf[..i]);
    }

    // Copy the component at p into the buffer and step over the slash behind it.
    static method NextComponent(path: string, p: nat, buf: array<char>) returns (i: nat, q: nat)
      requires p < |path| && '\0' !in path && buf.Length == NAME_MAX && ComponentEnd(path, p) - p < NAME_MAX
      modifies buf
      ensures var e := ComponentEnd(path, p);
        i == e - p && buf[..i] == path[p..e] && buf[i] == '\0' && q == (if e < |path| then e + 1 else e)
    {
      i, q := 0, p;
      while q < |path| && path[q] != '/'
        invariant p <= q <= |path| && i == q - p && ComponentEnd(path, q) == ComponentEnd(path, p)
        invariant i < NAME_MAX && forall x :: p <= x < q ==> buf[x - p] == path[x]
      {
        buf[i] := path[q];
        i, q := i + 1, q + 1;
      }
      buf[i] := '\0';
      assert buf[..i] == path[p..q];
      if q < |path| { q := q + 1; }
    }

    // sfs_path, for nodes at most 64 deep.
    method PathInto(node: int, buf: array<char>)
      requires Valid() && (node == NULL || (Used(State(), node) && depth[node] <= 64)) && buf.Length != 1
      modifies buf
      ensures node == NULL ==> buf[..] == old(buf[..])
      ensures node != NULL && buf.Length > 0 ==>
        var names := Path(State(), node);
        var text := if names == [] then "/" else Clipped(names, "", buf.Length);
        |text| < buf.Length && buf[..|text|] == text && buf[|text|] == '\0'
    {
      if node == NULL || buf.Length == 0 { return; }
      if node == 0 {
        buf[0], buf[1] := '/', '\0';
        return;
      }
      hide Tree, Path, Clipped;
      ghost var names := Path(State(), node);
      var parts := new string[64];
      var n := CollectParts(node, parts);
      assert names[0..] == names && buf[..0] == "";
      PrintParts(parts[..], n, buf, names);
    }

    // The collected names from last to first, each behind a slash, as far as the buffer goes.
    static method PrintParts(parts: seq<string>, n: nat, buf: array<char>, ghost names: seq<string>)
      requires n == |names| <= |parts| && buf.Length > 1 && forall j :: 0 <= j < n ==> parts[j] == names[n - 1 - j]
      modifies buf
      ensures var text := Clipped(names, "", buf.Length);
        |text| < buf.Length && buf[..|text|] == text && buf[|text|] == '\0'
    {
      hide Clipped;
      var pos: nat := 0;
      var i := n - 1;
      ghost var k := 0;
      assert names[0..] == names && buf[..0] == "";
      while i >= 0 && pos < buf.Length - 2
        invariant -1 <= i < n && k == n - 1 - i && pos < buf.Length
        invariant Clipped(names[k..], buf[..pos], buf.Length) == Clipped(names, "", buf.Length)
      {
        ClippedStep(names, k, buf[..pos], buf.Length);
        pos := AppendPart(parts[i], buf, pos);
        i, k := i - 1, k + 1;
      }
      ClippedEnds(names, k, buf[..pos], buf.Length);
      buf[pos] := '\0';
    }

    // sfs_path into a buffer with room for the path, and sfs_resolve of what it wrote there: the node
    // comes back from any current directory, unless one of its ancestors is a file.
    method PathThenResolve(node: int, cwd: int, size: nat) returns (found: int)
      requires Valid() && Used(State(), node) && Used(State(), cwd) && depth[node] <= 64
      requires size >= 2 && |Print(Path(State(), node))| < size
      requires forall n :: n in Path(State(), node) ==> Spellable(n)
      ensures found == if OnDirs(State(), node) then node else NULL
    {
      hide Tree, Path, Print, Clipped, ComponentEnd, Legal, Resolved, OnDirs, ShortNames;
      ghost var fs, names := State(), Path(State(), node);
      PathNames(fs, node);
      assert forall n :: n in names ==> n != "" by { SpelledNames(names); }
      ClippedFits(names, "", size);
      assert "" + Print(names) == Print(names);
      PrintedText(names);
      var buf := new char[size];
      PathInto(node, buf);
      var text := ReadText(buf, PathText(names));
      assert forall n :: n in names ==> Legal(n);
      ResolveUndoesPath(fs, node, cwd);
      found := Resolve(cwd, text);
    }

    // The C string in a buffer.
    static method ReadText(buf: array<char>, ghost text: string) returns (s: string)
      requires |text| < buf.Length && buf[..|text|] == text && buf[|text|] == '\0' && '\0' !in text
      ensures s == text
    {
      forall k | 0 <= k < |text| ensures buf[k] == text[k] != '\0' { assert text[k] == buf[..|text|][k] && text[k] in text; }
      var n := 0;
      s := "";
      while buf[n] != '\0'
        invariant 0 <= n <= |text| && s == text[..n]
        decreases |text| - n
      {
        s, n := s + [buf[n]], n + 1;
      }
    }

    method CollectParts(node: int, parts: array<string>) returns (n: nat)
      requires Valid() && Used(State(), node) && depth[node] <= 64 == parts.Length && node != 0
      modifies parts
      ensures var names := Path(State(), node);
        n == |names| > 0 && n <= 64 && forall j :: 0 <= j < n ==> parts[j] == names[n - 1 - j]
    {
      hide Tree, Path;
      ghost var fs, names := State(), Path(State(), node);
      DepthIsLength(fs, node);
      n := 0;
      var cur := node;
      assert names[..|names|] == names;
      assert Climbing(fs, names, cur, 0);
      SizedTree(fs);
      hide Climbing, Used;
      while cur != NULL && cur != 0
        invariant n == 0 ==> cur == node
        invariant n <= |names| <= 64 && 0 <= cur < MAX_NODES == pool.Length && fs == State() && Climbing(fs, names, cur, n)
        invariant forall j :: 0 <= j < n ==> parts[j] == names[|names| - 1 - j]
        decreases |names| - n
      {
        ClimbStep(fs, names, cur, n);
        assert fs == State();
        parts[n] := pool[cur].name;
        n := n + 1;
        cur := pool[cur].parent;
      }
      ClimbedAll(fs, names, n);
    }

    static method AppendPart(name: string, buf: array<char>, start: nat) returns (pos: nat)
      requires start < buf.Length - 2
      modifies buf
      ensures pos < buf.Length && buf[..pos] == Cut(old(buf[..start]) + "/" + name, buf.Length - 1)
    {
      pos := start;
      buf[pos] := '/';
      pos := pos + 1;
      var s := 0;
      while s < |name| && pos < buf.Length - 1
        invariant s <= |name| && pos == start + 1 + s <= buf.Length - 1
        invariant buf[..pos] == old(buf[..start]) + "/" + name[..s]
      {
        buf[pos] := name[s];
        pos, s := pos + 1, s + 1;
      }
      assert old(buf[..start]) + "/" + name == (old(buf[..start]) + "/" + name[..s]) + name[s..];
    }
  }

  lemma FindInStep(pool: seq<Node>, ks: seq<int>, j: nat, name: string)
    requires j < |ks| && InRange(pool, ks)
    ensures FindIn(pool, ks, j, name) == if pool[ks[j]].name == name then ks[j] else FindIn(pool, ks, j + 1, name)
  {
  }

  lemma FindInEnd(pool: seq<Node>, ks: seq<int>, name: string)
    requires InRange(pool, ks)
    ensures FindIn(pool, ks, |ks|, name) == NULL
  {
  }

  lemma FirstChild(fs: Fs, dir: int)
    requires Tree(fs) && Used(fs, dir)
    ensures fs.pool[dir].child == if fs.kids[dir] == [] then NULL else fs.kids[dir][0]
    ensures forall j :: 0 <= j < |fs.kids[dir]| ==> NextIs(fs.pool, fs.kids[dir], j)
  {
    KidsInRange(fs, dir);
    hide Tree;
  }

  lemma AddKeepsShort(fs: Fs, a: int, n: int, node: Node)
    requires CanAdd(fs, a, n, node) && Sized(fs) && ShortNames(fs) && |node.name| < NAME_MAX
    requires Sized(Added(fs, a, n, node))
    ensures ShortNames(Added(fs, a, n, node))
  {
    hide Tree, FindChild;
    assert Used(fs, a);
  }

  lemma RewriteKeepsShort(fs: Fs, n: int, data: seq<byte>)
    requires Sized(fs) && Used(fs, n) && ShortNames(fs)
    ensures Sized(Rewritten(fs, n, data)) && ShortNames(Rewritten(fs, n, data))
  {
  }

  lemma RemoveKeepsShort(fs: Fs, n: int, j: nat)
    requires CanRemove(fs, n, j) && Sized(fs) && ShortNames(fs) && Sized(Removed(fs, n, j))
    ensures ShortNames(Removed(fs, n, j))
  {
    hide Tree;
  }

  lemma ClippedStep(names: seq<string>, k: nat, out: string, size: nat)
    requires k < |names| && |out| < size - 2
    ensures Clipped(names[k..], out, size) == Clipped(names[k + 1..], Cut(out + "/" + names[k], size - 1), size)
  {
    hide Cut;
    assert names[k..][1..] == names[k + 1..];
    assert |Cut(out + "/" + names[k], size - 1)| < size by { CutShort(out + "/" + names[k], size - 1); }
  }

  lemma CutShort(s: string, n: nat)
    ensures |Cut(s, n)| <= n
  {
  }

  lemma ClippedEnds(names: seq<string>, k: nat, out: string, size: nat)
    requires k <= |names| && size >= 2 && |out| < size && (k == |names| || |out| >= size - 2)
    ensures Clipped(names[k..], out, size) == out
  {
  }

  lemma SpelledNames(names: seq<string>)
    requires forall n :: n in names ==> Spellable(n)
    ensures forall n :: n in names ==> n != "" && Legal(n)
  {
  }

  // The names on a path fit the resolver's buffer.
  lemma {:induction false} PathNames(fs: Fs, i: int)
    requires Tree(fs) && Used(fs, i) && ShortNames(fs)
    ensures forall n :: n in Path(fs, i) ==> |n| < NAME_MAX
    decreases fs.depth[i]
  {
    if i != 0 {
      ParentOfUsed(fs, i);
      assert ChildrenOf(fs, fs.pool[i].parent);
      PathNames(fs, fs.pool[i].parent);
    }
  }

  // A printed path is a C string whose components fit.
  lemma PrintedText(names: seq<string>)
    requires forall n :: n in names ==> Spellable(n) && |n| < NAME_MAX
    ensures var text := PathText(names);
      '\0' !in text && forall p :: 0 <= p <= |text| ==> ComponentEnd(text, p) - p < NAME_MAX
  {
    hide ComponentEnd, Print, Legal;
    if names != [] {
      PrintedClean(names);
      forall p | 0 <= p <= |Print(names)| ensures ComponentEnd(Print(names), p) - p < NAME_MAX { PrintedParts(names, p, NAME_MAX); }
    } else {
      forall p | 0 <= p <= 1 ensures ComponentEnd("/", p) - p < NAME_MAX { EndBefore("/", p, p); }
    }
  }

  lemma {:induction false} PrintedClean(names: seq<string>)
    requires forall n :: n in names ==> Spellable(n)
    ensures '\0' !in Print(names)
  {
    if names != [] {
      assert names[0] in names && forall n :: n in names[1..] ==> n in names;
      PrintedClean(names[1..]);
    }
  }

  // The two comparisons of a terminated buffer with "." and "..".
  lemma DotTests(buf: string, i: nat, comp: string)
    requires i < |buf| == NAME_MAX && buf[..i] == comp && buf[i] == '\0' && '\0' !in comp
    ensures i > 0 && buf[0] == '.' && buf[1] == '\0' <==> comp == "."
    ensures i > 0 && buf[0] == '.' && buf[1] == '.' && buf[2] == '\0' <==> comp == ".."
  {
    assert forall x :: 0 <= x < i ==> buf[x] == comp[x];
  }

  // After n steps up from a node with this path.
  ghost predicate Climbing(fs: Fs, names: seq<string>, cur: int, n: nat) {
    Tree(fs) && Used(fs, cur) && n <= |names| && Path(fs, cur) == names[..|names| - n]
  }

  lemma ClimbedAll(fs: Fs, names: seq<string>, n: nat)
    requires Climbing(fs, names, 0, n)
    ensures n == |names|
  {
  }

  lemma ClimbStep(fs: Fs, names: seq<string>, cur: int, n: nat)
    requires Climbing(fs, names, cur, n) && cur != 0 && |fs.pool| == MAX_NODES
    ensures n < |names| && fs.pool[cur].name == names[|names| - 1 - n]
    ensures Climbing(fs, names, fs.pool[cur].parent, n + 1) && 0 <= fs.pool[cur].parent < MAX_NODES
  {
    ParentOfUsed(fs, cur);
    var a, name, upper := fs.pool[cur].parent, fs.pool[cur].name, names[..|names| - n];
    assert Path(fs, cur) == Path(fs, a) + [name] && |upper| > 0;
    hide Tree, Path;
    assert upper[..|upper| - 1] == names[..|names| - n - 1] && upper[|upper| - 1] == name;
  }

  // ---- The freshly initialised file system ----

  function VersionText(): seq<byte> {
    [115, 99, 111, 114, 112, 105, 111, 110, 32, 49, 46, 48, 10]
  }

  function DefaultDirs(): seq<string> {
    ["bin", "etc", "modules", "tmp", "dev"]
  }

  lemma NewDefault(k: nat)
    requires k < 5
    ensures |DefaultDirs()| == 5
    ensures var name, made := DefaultDirs()[k], DefaultDirs()[..k];
      DefaultDirs()[..k + 1] == made + [name] && name !in made && |made| == k && |name| < NAME_MAX
  {
    var d := DefaultDirs();
    assert d[0][0] == 'b' && d[1][0] == 'e' && d[2][0] == 'm' && d[3][0] == 't' && d[4][0] == 'd';
    forall j | 0 <= j < k ensures d[j] != d[k] { assert d[j][0] != d[k][0]; }
  }

  ghost function DefaultView(p: seq<string>, granted: bool): Option<Entry> {
    if p == [] || (|p| == 1 && p[0] in DefaultDirs()) then Some(Dir)
    else if p == ["etc", "version"] then Some(File(if granted then VersionText() else []))
    else None
  }

  ghost predicate AllOnDirs(fs: Fs)
    requires Tree(fs)
  {
    forall i :: Used(fs, i) ==> OnDirs(fs, i)
  }

  // The root is named by the slash, and no directory has data.
  ghost predicate BareDirs(fs: Fs)
    requires Sized(fs)
  {
    fs.pool[0].name == "/" && forall i :: Used(fs, i) && fs.pool[i].isDir ==> fs.pool[i].data == []
  }

  // Directories with the given names under the root, in the lowest slots, and nothing else.
  ghost predicate Flat(fs: Fs, names: seq<string>)
    requires Tree(fs)
  {
    && AllOnDirs(fs) && BareDirs(fs)
    && (forall i :: Used(fs, i) <==> 0 <= i <= |names|)
    && FlatView(fs, names)
  }

  ghost predicate FlatView(fs: Fs, names: seq<string>)
    requires Tree(fs)
  {
    forall p :: Get(fs, p) == if p == [] || (|p| == 1 && p[0] in names) then Some(Dir) else None
  }

  lemma LoneRoot(fs: Fs)
    requires Sized(fs) && (forall i :: Used(fs, i) <==> i == 0) && fs.kids[0] == [] && fs.depth[0] == 0
    requires fs.pool[0] == Node("/", true, [], NULL, NULL, NULL)
    ensures Tree(fs) && Flat(fs, [])
  {
    forall p ensures Get(fs, p) == if p == [] then Some(Dir) else None {
      if p != [] {
        assert FindChild(fs, 0, p[0]) == NULL;
        LookupNull(fs, p[1..]);
      }
    }
  }

  lemma FlatRoot(fs: Fs, names: seq<string>, name: string)
    requires Tree(fs) && Flat(fs, names) && name !in names && |names| < 8
    ensures FindChild(fs, 0, name) == NULL && !fs.used[|names| + 1]
  {
    assert Used(fs, 0) && Get(fs, [name]) == None;
    assert Lookup(fs, 0, [name]) == FindChild(fs, 0, name) by { assert [name][1..] == []; }
    assert !Used(fs, |names| + 1);
  }

  lemma FlatGrows(fs: Fs, names: seq<string>, n: int, node: Node)
    requires Tree(fs) && Flat(fs, names) && CanAdd(fs, 0, n, node) && node.isDir && node.data == [] && |names| < 8
    requires Tree(Added(fs, 0, n, node)) && forall i :: 0 <= i < n ==> fs.used[i]
    ensures Flat(Added(fs, 0, n, node), names + [node.name])
  {
    NextSlot(fs, names, n);
    assert FlatView(fs, names);
    hide Tree, Added, FindChild, CanAdd, Get, AllOnDirs, Used, Path, FlatView, Sets;
    AddedUsed(fs, 0, n, node);
    AddedBare(fs, 0, n, node);
    ViewAfterAdd(fs, 0, n, node, [node.name]);
    FlatViewGrows(fs, Added(fs, 0, n, node), names, node.name);
  }

  lemma FlatViewGrows(fs: Fs, fs': Fs, names: seq<string>, name: string)
    requires Tree(fs) && Tree(fs') && FlatView(fs, names) && Sets(fs, fs', [name], Dir)
    ensures FlatView(fs', names + [name])
  {
    hide Tree, Get;
  }

  lemma NextSlot(fs: Fs, names: seq<string>, n: int)
    requires Tree(fs) && Flat(fs, names) && |names| < 8 && 0 <= n < MAX_NODES && !fs.used[n]
    requires forall i :: 0 <= i < n ==> fs.used[i]
    ensures n == |names| + 1 && Used(fs, 0) && fs.pool[0].isDir && Path(fs, 0) == []
  {
    assert !Used(fs, |names| + 1) && !Used(fs, n) && Used(fs, 0);
  }

  lemma AddedUsed(fs: Fs, a: int, n: int, node: Node)
    requires CanAdd(fs, a, n, node)
    ensures Sized(fs) && Sized(Added(fs, a, n, node))
    ensures forall i :: Used(Added(fs, a, n, node), i) <==> Used(fs, i) || i == n
  {
    hide Tree, FindChild;
    SizedTree(fs);
  }

  lemma AddedBare(fs: Fs, a: int, n: int, node: Node)
    requires CanAdd(fs, a, n, node) && Sized(fs) && BareDirs(fs) && (node.isDir ==> node.data == [])
    ensures Sized(Added(fs, a, n, node)) && BareDirs(Added(fs, a, n, node))
  {
    SizedTree(fs);
    hide FindChild, Tree;
    assert Used(fs, 0) && Used(fs, a) && n != 0;
  }

  // Adding under a directory that can be reached adds one path to the view.
  lemma ViewAfterAdd(fs: Fs, a: int, n: int, node: Node, path: seq<string>)
    requires CanAdd(fs, a, n, node) && AllOnDirs(fs) && fs.pool[a].isDir && Tree(Added(fs, a, n, node))
    requires path == Path(fs, a) + [node.name]
    ensures AllOnDirs(Added(fs, a, n, node))
    ensures Sets(fs, Added(fs, a, n, node), path, if node.isDir then Dir else File(node.data))
  {
    AddKeepsReach(fs, a, n, node);
    assert OnDirs(fs, a);
    hide Tree, Added, FindChild, CanAdd, AllOnDirs, OnDirs, Path, Get, Lookup;
    forall p ensures Get(Added(fs, a, n, node), p) ==
      if p == path then Some(if node.isDir then Dir else File(node.data)) else Get(fs, p)
    {
      AddChangesView(fs, a, n, node, p);
    }
  }

  lemma AddKeepsReach(fs: Fs, a: int, n: int, node: Node)
    requires CanAdd(fs, a, n, node) && AllOnDirs(fs) && fs.pool[a].isDir && Tree(Added(fs, a, n, node))
    ensures AllOnDirs(Added(fs, a, n, node))
  {
    NodeFacts(fs, a, n, node);
    AddKeepsPaths(fs, a, n, node, a);
    assert OnDirs(fs, a);
    hide Tree, Added, FindChild;
    forall i | Used(Added(fs, a, n, node), i) ensures OnDirs(Added(fs, a, n, node), i) {
      if i != n {
        assert Used(fs, i);
        AddKeepsPaths(fs, a, n, node, i);
      }
    }
  }

  lemma FlatEtc(fs: Fs)
    requires Tree(fs) && Flat(fs, DefaultDirs())
    ensures var etc := FindChild(fs, 0, "etc");
      && etc != NULL && fs.pool[etc].isDir && AllOnDirs(fs) && Path(fs, etc) + ["version"] == ["etc", "version"]
      && FindChild(fs, etc, "version") == NULL
    ensures !fs.used[6]
  {
    EtcView(fs);
    hide Tree, Flat, FindChild, OnDirs, Path;
    assert ["etc"] + ["version"] == ["etc", "version"];
    ChildOfRoot(fs, "etc");
    LookupIsPath(fs, ["etc"]);
    LookupAppend(fs, 0, ["etc"], "version");
  }

  lemma EtcView(fs: Fs)
    requires Tree(fs) && Flat(fs, DefaultDirs())
    ensures Get(fs, ["etc"]) == Some(Dir) && Get(fs, ["etc", "version"]) == None && AllOnDirs(fs) && !fs.used[6]
  {
    SizedTree(fs);
    hide Tree, Get, OnDirs, FlatView;
    var names := DefaultDirs();
    assert |names| == 5 && names[1] == "etc";
    assert !Used(fs, 6);
    hide DefaultDirs, Flat;
    FlatViewAt(fs, names, ["etc"]);
    FlatViewAt(fs, names, ["etc", "version"]);
  }

  lemma FlatViewAt(fs: Fs, names: seq<string>, p: seq<string>)
    requires Tree(fs) && FlatView(fs, names)
    ensures Get(fs, p) == if p == [] || (|p| == 1 && p[0] in names) then Some(Dir) else None
  {
    hide Tree, Get;
  }

  lemma ChildOfRoot(fs: Fs, name: string)
    requires Tree(fs)
    ensures Used(fs, 0) && Lookup(fs, 0, [name]) == FindChild(fs, 0, name)
  {
    assert [name][1..] == [] && Lookup(fs, FindChild(fs, 0, name), []) == FindChild(fs, 0, name);
    hide Tree, FindChild;
  }

  lemma VersionAdded(fs: Fs, fs': Fs, etc: int, n: int, granted: bool)
    requires Tree(fs) && Flat(fs, DefaultDirs()) && etc == FindChild(fs, 0, "etc") && etc != NULL && Tree(fs')
    requires var node := Node("version", false, if granted then VersionText() else [], NULL, NULL, NULL);
      CanAdd(fs, etc, n, node) && fs' == Added(fs, etc, n, node)
    ensures AllOnDirs(fs') && BareDirs(fs') && forall p :: Get(fs', p) == DefaultView(p, granted)
  {
    var node := Node("version", false, if granted then VersionText() else [], NULL, NULL, NULL);
    FlatEtc(fs);
    assert FlatView(fs, DefaultDirs());
    hide Tree, Added, FindChild, CanAdd, Flat, FlatView, AllOnDirs, Path, Get, Sets, DefaultView, VersionText;
    AddedBare(fs, etc, n, node);
    ViewAfterAdd(fs, etc, n, node, ["etc", "version"]);
    VersionView(fs, fs', granted);
  }

  lemma VersionView(fs: Fs, fs': Fs, granted: bool)
    requires Tree(fs) && Tree(fs') && FlatView(fs, DefaultDirs())
    requires Sets(fs, fs', ["etc", "version"], File(if granted then VersionText() else []))
    ensures forall p :: Get(fs', p) == DefaultView(p, granted)
  {
    hide Tree, Get, DefaultDirs, VersionText;
  }

  lemma {:induction false} DepthIsLength(fs: Fs, i: int)
    requires Tree(fs) && Used(fs, i)
    ensures |Path(fs, i)| == fs.depth[i]
    decreases fs.depth[i]
  {
    if i != 0 {
      var a := fs.pool[i].parent;
      assert i in fs.kids[a] && ChildrenOf(fs, a);
      DepthIsLength(fs, a);
    }
  }

  lemma SizedTree(fs: Fs)
    requires Tree(fs)
    ensures Sized(fs) && Used(fs, 0)
  {
  }

  lemma ParentOfUsed(fs: Fs, n: int)
    requires Tree(fs) && Used(fs, n)
    ensures fs.pool[n].parent == NULL <==> n == 0
    ensures n != 0 ==> Used(fs, fs.pool[n].parent) && n in fs.kids[fs.pool[n].parent]
  {
  }

  ghost function IndexIn(ks: seq<int>, n: int): (j: nat)
    requires n in ks
    ensures j < |ks| && ks[j] == n && forall x :: 0 <= x < j ==> ks[x] != n
  {
    if ks[0] == n then 0 else 1 + IndexIn(ks[1..], n)
  }
}
