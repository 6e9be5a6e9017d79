/**
 ScorpionFS as a value (fs/sfs.c): a pool of 512 node records linked by parent, first-child
 and next-sibling indices, with -1 for a null pointer.  The child lists and depths the links
 stand for are kept beside it.
 */
module FsTree {
  const MAX_NODES: nat := 512
  const NULL := -1

  type byte = x: int | 0 <= x < 256

  // `data` is empty when the source's data pointer is null.
  datatype Node = Node(name: string, isDir: bool, data: seq<byte>, parent: int, child: int, next: int)

  datatype Fs = Fs(pool: seq<Node>, used: seq<bool>, kids: seq<seq<int>>, depth: seq<nat>)

  // What a path leads to.
  datatype Entry = Dir | File(data: seq<byte>)
  datatype Option<T> = None | Some(value: T)

  ghost predicate Sized(fs: Fs) {
    |fs.pool| == |fs.used| == |fs.kids| == |fs.depth| == MAX_NODES
  }

  ghost predicate Used(fs: Fs, i: int)
    requires Sized(fs)
  {
    0 <= i < MAX_NODES && fs.used[i]
  }

  // The sibling link of the j-th node of a child list.
  ghost predicate NextIs(pool: seq<Node>, ks: seq<int>, j: nat)
    requires j < |ks|
  {
    0 <= ks[j] < |pool| && pool[ks[j]].next == (if j + 1 < |ks| then ks[j + 1] else NULL)
  }

  // The links from node i spell out its child list.
  ghost predicate Linked(fs: Fs, i: int)
    requires Sized(fs) && 0 <= i < MAX_NODES
  {
    var ks := fs.kids[i];
    && fs.pool[i].child == (if ks == [] then NULL else ks[0])
    && forall j :: 0 <= j < |ks| ==> NextIs(fs.pool, ks, j)
  }

  ghost predicate ChildrenOf(fs: Fs, i: int)
    requires Sized(fs) && 0 <= i < MAX_NODES
  {
    && (forall k :: k in fs.kids[i] ==>
          Used(fs, k) && k != 0 && fs.pool[k].parent == i && fs.depth[k] == fs.depth[i] + 1)
    && (forall a, b :: 0 <= a < b < |fs.kids[i]| ==> fs.kids[i][a] != fs.kids[i][b])
  }

  ghost predicate UniqueNames(fs: Fs, i: int)
    requires Sized(fs) && 0 <= i < MAX_NODES && ChildrenOf(fs, i)
  {
    forall a, b :: a in fs.kids[i] && b in fs.kids[i] && a != b ==> fs.pool[a].name != fs.pool[b].name
  }

  // The invariant of every reachable file system: node 0 is the root, every other node is in its
  // parent's list, and siblings in a directory have different names.
  ghost predicate Tree(fs: Fs) {
    && Sized(fs)
    && Used(fs, 0) && fs.pool[0].isDir && fs.pool[0].parent == NULL && fs.depth[0] == 0
    && (forall i :: Used(fs, i) ==> Linked(fs, i) && ChildrenOf(fs, i))
    && (forall i :: Used(fs, i) && i != 0 ==> Used(fs, fs.pool[i].parent) && i in fs.kids[fs.pool[i].parent])
    && (forall i :: Used(fs, i) && fs.pool[i].isDir ==> UniqueNames(fs, i))
  }

  // ---- Paths and lookup ----

  ghost function Path(fs: Fs, i: int): seq<string>
    requires Tree(fs) && Used(fs, i)
    decreases fs.depth[i]
  {
    if i == 0 then [] else Path(fs, fs.pool[i].parent) + [fs.pool[i].name]
  }

  // Every proper ancestor is a directory.
  ghost predicate OnDirs(fs: Fs, i: int)
    requires Tree(fs) && Used(fs, i)
    decreases fs.depth[i]
  {
    i == 0 || (fs.pool[fs.pool[i].parent].isDir && OnDirs(fs, fs.pool[i].parent))
  }

  ghost predicate InRange(pool: seq<Node>, ks: seq<int>) {
    forall j :: 0 <= j < |ks| ==> 0 <= ks[j] < |pool|
  }

  // The first node of a child list, from its j-th entry on, that has this name.
  ghost function FindIn(pool: seq<Node>, ks: seq<int>, j: nat, name: string): (k: int)
    requires j <= |ks| && InRange(pool, ks)
    ensures k == NULL || (k in ks && pool[k].name == name)
    ensures k == NULL ==> forall i :: j <= i < |ks| ==> pool[ks[i]].name != name
    decreases |ks| - j
  {
    if j == |ks| then NULL
    else if pool[ks[j]].name == name then ks[j]
    else FindIn(pool, ks, j + 1, name)
  }

  lemma KidsInRange(fs: Fs, dir: int)
    requires Tree(fs) && Used(fs, dir)
    ensures InRange(fs.pool, fs.kids[dir]) && Linked(fs, dir)
    ensures forall k :: k in fs.kids[dir] ==> Used(fs, k)
  {
    assert Linked(fs, dir) && ChildrenOf(fs, dir);
    forall j | 0 <= j < |fs.kids[dir]| ensures 0 <= fs.kids[dir][j] < MAX_NODES { assert fs.kids[dir][j] in fs.kids[dir]; }
  }

  // What sfs_find_child returns.
  ghost function FindChild(fs: Fs, dir: int, name: string): (k: int)
    requires Tree(fs) && (dir == NULL || Used(fs, dir))
    ensures k == NULL || (dir != NULL && Used(fs, k) && k in fs.kids[dir] && fs.pool[k].name == name)
  {
    if dir == NULL || !fs.pool[dir].isDir then NULL
    else
      KidsInRange(fs, dir);
      FindIn(fs.pool, fs.kids[dir], 0, name)
  }

  ghost function Lookup(fs: Fs, i: int, p: seq<string>): (r: int)
    requires Tree(fs) && (i == NULL || Used(fs, i))
    ensures r == NULL || Used(fs, r)
    decreases |p|
  {
    if p == [] then i else Lookup(fs, FindChild(fs, i, p[0]), p[1..])
  }

  ghost function EntryOf(fs: Fs, i: int): Entry
    requires Sized(fs) && Used(fs, i)
  {
    if fs.pool[i].isDir then Dir else File(fs.pool[i].data)
  }

  // The file system as its users see it: from paths to contents.
  ghost function Get(fs: Fs, p: seq<string>): Option<Entry>
    requires Tree(fs)
  {
    var i := Lookup(fs, 0, p);
    if i == NULL then None else Some(EntryOf(fs, i))
  }

  // The view of `after` is that of `before` with one entry set.
  ghost predicate Sets(before: Fs, after: Fs, path: seq<string>, e: Entry)
    requires Tree(before) && Tree(after)
  {
    forall p :: Get(after, p) == if p == path then Some(e) else Get(before, p)
  }

  lemma {:induction false} LookupNull(fs: Fs, p: seq<string>)
    requires Tree(fs)
    ensures Lookup(fs, NULL, p) == NULL
    decreases |p|
  {
    if p != [] { LookupNull(fs, p[1..]); }
  }

  lemma {:induction false} LookupAppend(fs: Fs, i: int, p: seq<string>, name: string)
    requires Tree(fs) && (i == NULL || Used(fs, i))
    ensures Lookup(fs, i, p + [name]) == FindChild(fs, Lookup(fs, i, p), name)
    decreases |p|
  {
    if p == [] {
      assert (p + [name])[1..] == [];
    } else {
      assert (p + [name])[1..] == p[1..] + [name];
      LookupAppend(fs, FindChild(fs, i, p[0]), p[1..], name);
    }
  }

  // A node's own path leads back to it exactly when every proper ancestor is a directory.
  lemma {:induction false} LookupPath(fs: Fs, i: int)
    requires Tree(fs) && Used(fs, i)
    ensures Lookup(fs, 0, Path(fs, i)) == if OnDirs(fs, i) then i else NULL
    decreases fs.depth[i]
  {
    if i != 0 {
      var a := fs.pool[i].parent;
      LookupPath(fs, a);
      LookupAppend(fs, 0, Path(fs, a), fs.pool[i].name);
      if OnDirs(fs, a) && fs.pool[a].isDir {
        var k := FindChild(fs, a, fs.pool[i].name);
        assert i in fs.kids[a];
        assert k == i by { assert UniqueNames(fs, a); }
      }
    }
  }

  // Conversely, whatever a path leads to has that path and sits under directories only.
  lemma {:induction false} LookupIsPath(fs: Fs, p: seq<string>)
    requires Tree(fs) && Lookup(fs, 0, p) != NULL
    ensures var i := Lookup(fs, 0, p); Path(fs, i) == p && OnDirs(fs, i)
    decreases |p|
  {
    if p != [] {
      var q, name := p[..|p| - 1], p[|p| - 1];
      assert p == q + [name];
      LookupAppend(fs, 0, q, name);
      LookupIsPath(fs, q);
      var a := Lookup(fs, 0, q);
      var i := FindChild(fs, a, name);
      assert i in fs.kids[a] && ChildrenOf(fs, a);
    }
  }

  // ---- Adding a node ----

  ghost function Added(fs: Fs, a: int, n: int, node: Node): Fs
    requires Sized(fs) && 0 <= a < MAX_NODES && 0 <= n < MAX_NODES
  {
    Fs(fs.pool[n := node.(parent := a, child := NULL, next := fs.pool[a].child)][a := fs.pool[a].(child := n)],
       fs.used[n := true],
       fs.kids[n := []][a := [n] + fs.kids[a]],
       fs.depth[n := fs.depth[a] + 1])
  }

  ghost predicate CanAdd(fs: Fs, a: int, n: int, node: Node) {
    && Tree(fs) && Used(fs, a) && 0 <= n < MAX_NODES && !fs.used[n]
    && FindChild(fs, a, node.name) == NULL
  }

  lemma AddedLinked(fs: Fs, a: int, n: int, node: Node, i: int)
    requires CanAdd(fs, a, n, node) && Used(Added(fs, a, n, node), i)
    ensures Linked(Added(fs, a, n, node), i)
  {
    var fs' := Added(fs, a, n, node);
    var ks, ks' := fs.kids[i], fs'.kids[i];
    if i != n {
      assert Linked(fs, i) && ChildrenOf(fs, i);
      forall j | 0 <= j < |ks| ensures NextIs(fs'.pool, ks, j) {
        assert ks[j] in ks && NextIs(fs.pool, ks, j);
        if ks[j] == a { assert fs'.pool[a].next == fs.pool[a].next; }
      }
    }
    if i == a {
      forall j | 0 <= j < |ks'| ensures NextIs(fs'.pool, ks', j) {
        if j > 0 { assert NextIs(fs'.pool, ks, j - 1) && ks'[j] == ks[j - 1]; }
      }
    }
  }

  lemma AddedChildren(fs: Fs, a: int, n: int, node: Node, i: int)
    requires CanAdd(fs, a, n, node) && Used(Added(fs, a, n, node), i)
    ensures ChildrenOf(Added(fs, a, n, node), i)
  {
    var fs' := Added(fs, a, n, node);
    var ks, ks' := fs.kids[i], fs'.kids[i];
    assert n != 0 && n != a;
    if i != n {
      assert ChildrenOf(fs, i);
      forall k | k in ks'
        ensures Used(fs', k) && k != 0 && fs'.pool[k].parent == i && fs'.depth[k] == fs'.depth[i] + 1
      {
        if k != n || i != a { assert k in ks && Used(fs, k); }
      }
      forall x, y | 0 <= x < y < |ks'| ensures ks'[x] != ks'[y] {
        if i == a {
          assert ks'[y] == ks[y - 1] && ks[y - 1] in ks;
          if x > 0 { assert ks'[x] == ks[x - 1]; }
        }
      }
    }
  }

  lemma AddKeepsTree(fs: Fs, a: int, n: int, node: Node)
    requires CanAdd(fs, a, n, node)
    ensures Tree(Added(fs, a, n, node))
  {
    hide Linked, ChildrenOf;
    var fs' := Added(fs, a, n, node);
    forall i | Used(fs', i) ensures Linked(fs', i) && ChildrenOf(fs', i) {
      AddedLinked(fs, a, n, node, i);
      AddedChildren(fs, a, n, node, i);
    }
    assert Used(fs, 0);
    forall i | Used(fs', i) && i != 0 ensures Used(fs', fs'.pool[i].parent) && i in fs'.kids[fs'.pool[i].parent] {
      if i == n {
        assert fs'.kids[a][0] == n;
      } else {
        assert Used(fs, i);
      }
    }
    forall i | Used(fs', i) && fs'.pool[i].isDir ensures UniqueNames(fs', i) {
      AddedUnique(fs, a, n, node, i);
    }
  }

  lemma AddedUnique(fs: Fs, a: int, n: int, node: Node, i: int)
    requires CanAdd(fs, a, n, node) && Used(Added(fs, a, n, node), i) && Added(fs, a, n, node).pool[i].isDir
    requires ChildrenOf(Added(fs, a, n, node), i)
    ensures UniqueNames(Added(fs, a, n, node), i)
  {
    if i != n {
      var fs' := Added(fs, a, n, node);
      assert ChildrenOf(fs, i) && UniqueNames(fs, i);
      NotListed(fs, a, n, node, i);
      hide Tree, FindChild, Added, CanAdd, ChildrenOf;
      forall x, y | x in fs'.kids[i] && y in fs'.kids[i] && x != y ensures fs'.pool[x].name != fs'.pool[y].name {
        assert x in fs.kids[i] || (i == a && x == n);
        assert y in fs.kids[i] || (i == a && y == n);
      }
    }
  }

  // A directory's list after adding, and the names on it.
  lemma NotListed(fs: Fs, a: int, n: int, node: Node, i: int)
    requires CanAdd(fs, a, n, node) && Used(fs, i) && i != n && fs.pool[i].isDir
    ensures var fs' := Added(fs, a, n, node);
      && (forall k :: k in fs'.kids[i] ==> k in fs.kids[i] || (i == a && k == n))
      && (forall k :: k in fs.kids[i] ==> fs'.pool[k].name == fs.pool[k].name)
      && fs'.pool[n].name == node.name
      && (i == a ==> forall k :: k in fs.kids[i] ==> fs.pool[k].name != node.name)
  {
    KidsInRange(fs, i);
    if i == a {
      forall k | k in fs.kids[i] ensures fs.pool[k].name != node.name {
        var x :| 0 <= x < |fs.kids[i]| && fs.kids[i][x] == k;
      }
    }
  }

  lemma {:induction false} AddKeepsPaths(fs: Fs, a: int, n: int, node: Node, i: int)
    requires CanAdd(fs, a, n, node) && Tree(Added(fs, a, n, node)) && Used(fs, i)
    ensures Path(Added(fs, a, n, node), i) == Path(fs, i)
    ensures OnDirs(Added(fs, a, n, node), i) == OnDirs(fs, i)
    decreases fs.depth[i]
  {
    var fs', q := Added(fs, a, n, node), fs.pool[i].parent;
    assert fs'.pool[i].parent == q && fs'.pool[i].name == fs.pool[i].name;
    if i != 0 {
      assert i in fs.kids[q] && ChildrenOf(fs, q);
      assert fs'.pool[q].isDir == fs.pool[q].isDir;
      hide Tree, Added;
      AddKeepsPaths(fs, a, n, node, q);
    }
  }

  // The users' view after adding: one more path if the parent can be reached, else no change.
  lemma AddChangesView(fs: Fs, a: int, n: int, node: Node, p: seq<string>)
    requires CanAdd(fs, a, n, node) && Tree(Added(fs, a, n, node))
    ensures Get(Added(fs, a, n, node), p) ==
      if OnDirs(fs, a) && fs.pool[a].isDir && p == Path(fs, a) + [node.name]
      then Some(if node.isDir then Dir else File(node.data)) else Get(fs, p)
  {
    var fs' := Added(fs, a, n, node);
    hide Tree, FindIn, Added, FindChild;
    NodeFacts(fs, a, n, node);
    AddKeepsPaths(fs, a, n, node, a);
    var r, r' := Lookup(fs, 0, p), Lookup(fs', 0, p);
    if r != NULL {
      LookupIsPath(fs, p);
      AddKeepsPaths(fs, a, n, node, r);
      LookupPath(fs', r);
      if OnDirs(fs, a) && fs.pool[a].isDir && p == Path(fs, a) + [node.name] {
        LookupAppend(fs, 0, Path(fs, a), node.name);
        LookupPath(fs, a);
      }
    } else if r' != NULL {
      LookupIsPath(fs', p);
      if r' != n {
        AddKeepsPaths(fs, a, n, node, r');
        LookupPath(fs, r');
      }
    } else if OnDirs(fs, a) && fs.pool[a].isDir && p == Path(fs, a) + [node.name] {
      LookupPath(fs', n);
    }
  }

  lemma NodeFacts(fs: Fs, a: int, n: int, node: Node)
    requires CanAdd(fs, a, n, node) && Tree(Added(fs, a, n, node))
    ensures var fs' := Added(fs, a, n, node);
      && Sized(fs) && Sized(fs') && Used(fs, 0) && Used(fs', 0) && Used(fs', n) && Used(fs', a) && a != n && n != 0
      && Path(fs', n) == Path(fs', a) + [node.name]
      && OnDirs(fs', n) == (fs.pool[a].isDir && OnDirs(fs', a))
      && (forall i :: Used(fs', i) && i != n ==> Used(fs, i) && EntryOf(fs', i) == EntryOf(fs, i))
    ensures forall i :: Used(fs, i) ==> Used(Added(fs, a, n, node), i)
  {
    var fs' := Added(fs, a, n, node);
    NewNode(fs, a, n, node);
    hide Tree, Path, OnDirs, FindChild;
  }

  lemma NewNode(fs: Fs, a: int, n: int, node: Node)
    requires CanAdd(fs, a, n, node) && Tree(Added(fs, a, n, node))
    ensures var fs' := Added(fs, a, n, node);
      && Sized(fs) && Sized(fs') && Used(fs, 0) && Used(fs', n) && Used(fs', a) && n != 0 && n != a && Used(fs, a)
      && Path(fs', n) == Path(fs', a) + [node.name]
      && OnDirs(fs', n) == (fs.pool[a].isDir && OnDirs(fs', a))
  {
    var fs' := Added(fs, a, n, node);
    assert Used(fs, 0) && Used(fs', n) && fs'.pool[n].parent == a && fs'.pool[n].name == node.name;
    assert n != 0 && Sized(fs') && Used(fs', a) && fs'.pool[a].isDir == fs.pool[a].isDir;
    hide Tree, FindChild, Added;
  }

  // ---- Overwriting a node's data ----

  ghost function Rewritten(fs: Fs, n: int, data: seq<byte>): Fs
    requires Sized(fs) && Used(fs, n)
  {
    fs.(pool := fs.pool[n := fs.pool[n].(data := data)])
  }

  lemma RewriteKeepsTree(fs: Fs, n: int, data: seq<byte>)
    requires Tree(fs) && Used(fs, n)
    ensures Tree(Rewritten(fs, n, data))
  {
    var fs' := Rewritten(fs, n, data);
    RewriteBasics(fs, n, data);
    hide Linked, ChildrenOf, UniqueNames, Rewritten;
    forall i | Used(fs', i)
      ensures Linked(fs', i) && ChildrenOf(fs', i) && (fs'.pool[i].isDir ==> UniqueNames(fs', i))
    {
      RewriteNode(fs, n, data, i);
    }
  }

  lemma RewriteBasics(fs: Fs, n: int, data: seq<byte>)
    requires Tree(fs) && Used(fs, n)
    ensures var fs' := Rewritten(fs, n, data);
      && Sized(fs') && fs'.used == fs.used && fs'.kids == fs.kids && fs'.depth == fs.depth
      && forall i :: Used(fs, i) ==> fs'.pool[i].isDir == fs.pool[i].isDir && fs'.pool[i].parent == fs.pool[i].parent
  {
  }

  lemma RewriteNode(fs: Fs, n: int, data: seq<byte>, i: int)
    requires Tree(fs) && Used(fs, n) && Used(fs, i)
    ensures var fs' := Rewritten(fs, n, data);
      Linked(fs', i) && ChildrenOf(fs', i) && (fs'.pool[i].isDir ==> UniqueNames(fs', i))
  {
    assert Linked(fs, i) && ChildrenOf(fs, i) && (fs.pool[i].isDir ==> UniqueNames(fs, i));
    hide Tree;
    var ks := fs.kids[i];
    forall j | 0 <= j < |ks| ensures NextIs(Rewritten(fs, n, data).pool, ks, j) { assert NextIs(fs.pool, ks, j); }
  }

  lemma {:induction false} RewriteKeepsPath(fs: Fs, n: int, data: seq<byte>, i: int)
    requires Tree(fs) && Used(fs, n) && Tree(Rewritten(fs, n, data)) && Used(fs, i)
    ensures Path(Rewritten(fs, n, data), i) == Path(fs, i)
    ensures OnDirs(Rewritten(fs, n, data), i) == OnDirs(fs, i)
    decreases fs.depth[i]
  {
    var fs', q := Rewritten(fs, n, data), fs.pool[i].parent;
    assert fs'.pool[i].parent == q && fs'.pool[i].name == fs.pool[i].name;
    if i != 0 {
      assert i in fs.kids[q] && ChildrenOf(fs, q);
      assert fs'.pool[q].isDir == fs.pool[q].isDir;
      hide Tree, Rewritten;
      RewriteKeepsPath(fs, n, data, q);
    }
  }

  // Only the path of the node itself shows new content, and only if it is a file.
  lemma RewriteChangesView(fs: Fs, n: int, data: seq<byte>, p: seq<string>)
    requires Tree(fs) && Used(fs, n) && Tree(Rewritten(fs, n, data))
    ensures Get(Rewritten(fs, n, data), p) ==
      if OnDirs(fs, n) && p == Path(fs, n) && !fs.pool[n].isDir then Some(File(data)) else Get(fs, p)
  {
    var fs' := Rewritten(fs, n, data);
    RewriteFacts(fs, n, data);
    hide Tree, Rewritten, FindChild, Sized, EntryOf;
    var r, r' := Lookup(fs, 0, p), Lookup(fs', 0, p);
    LookupPath(fs, n);
    if r != NULL {
      LookupIsPath(fs, p);
      RewriteKeepsPath(fs, n, data, r);
      LookupPath(fs', r);
    } else if r' != NULL {
      LookupIsPath(fs', p);
      RewriteKeepsPath(fs, n, data, r');
      LookupPath(fs, r');
    }
  }

  lemma RewriteFacts(fs: Fs, n: int, data: seq<byte>)
    requires Tree(fs) && Used(fs, n) && Tree(Rewritten(fs, n, data))
    ensures var fs' := Rewritten(fs, n, data);
      && Sized(fs) && Sized(fs') && Used(fs, 0) && Used(fs', 0)
      && forall i :: Used(fs', i) <==> Used(fs, i)
    ensures forall i :: Used(fs, i) ==>
      (EntryOf(Rewritten(fs, n, data), i) == if i == n && !fs.pool[n].isDir then File(data) else EntryOf(fs, i))
  {
  }

  // ---- Removing a childless node ----

  ghost function Without(ks: seq<int>, j: nat): seq<int>
    requires j < |ks|
  {
    ks[..j] + ks[j + 1..]
  }

  // n is the j-th child of its parent.
  ghost predicate ChildAt(fs: Fs, n: int, j: nat) {
    && Sized(fs) && Used(fs, n) && Used(fs, fs.pool[n].parent)
    && var ks := fs.kids[fs.pool[n].parent];
    j < |ks| && ks[j] == n && (j > 0 ==> 0 <= ks[j - 1] < MAX_NODES)
  }

  ghost predicate CanRemove(fs: Fs, n: int, j: nat) {
    ChildAt(fs, n, j) && Tree(fs) && n != 0 && fs.kids[n] == []
  }

  // The node is unlinked from its predecessor, or from its parent if it comes first.
  ghost function Removed(fs: Fs, n: int, j: nat): Fs
    requires ChildAt(fs, n, j)
  {
    var a := fs.pool[n].parent;
    var ks := fs.kids[a];
    Fs(if j == 0 then fs.pool[a := fs.pool[a].(child := fs.pool[n].next)]
       else fs.pool[ks[j - 1] := fs.pool[ks[j - 1]].(next := fs.pool[n].next)],
       fs.used[n := false], fs.kids[a := Without(ks, j)], fs.depth)
  }

  // What removal does, field by field.
  lemma RemoveBasics(fs: Fs, n: int, j: nat)
    requires CanRemove(fs, n, j)
    ensures var fs', a, ks := Removed(fs, n, j), fs.pool[n].parent, fs.kids[fs.pool[n].parent];
      && Sized(fs) && Sized(fs') && Used(fs, a) && Linked(fs, a) && ChildrenOf(fs, a)
      && fs'.depth == fs.depth && fs'.kids == fs.kids[a := Without(ks, j)]
      && (forall i :: Used(fs', i) <==> Used(fs, i) && i != n)
      && (forall i :: 0 <= i < MAX_NODES ==> Unlinked(fs, n, j, a, i, fs'.pool[i]))
  {
    assert Linked(fs, fs.pool[n].parent) && ChildrenOf(fs, fs.pool[n].parent);
    hide Tree, Linked, ChildrenOf, NextIs, Without, Unlinked;
    forall i | 0 <= i < MAX_NODES ensures Unlinked(fs, n, j, fs.pool[n].parent, i, Removed(fs, n, j).pool[i]) {
      UnlinkedNode(fs, n, j, i);
    }
  }

  lemma UnlinkedNode(fs: Fs, n: int, j: nat, i: int)
    requires ChildAt(fs, n, j) && 0 <= i < MAX_NODES
    ensures Unlinked(fs, n, j, fs.pool[n].parent, i, Removed(fs, n, j).pool[i])
  {
    hide Without;
  }

  // The i-th record after removing n, the j-th child of a.
  ghost predicate Unlinked(fs: Fs, n: int, j: nat, a: int, i: int, x: Node)
    requires Sized(fs) && Used(fs, n) && Used(fs, a) && j < |fs.kids[a]| && 0 <= i < MAX_NODES
  {
    && SameNode(fs.pool[i], x)
    && x.child == (if j == 0 && i == a then fs.pool[n].next else fs.pool[i].child)
    && x.next == (if j > 0 && i == fs.kids[a][j - 1] then fs.pool[n].next else fs.pool[i].next)
  }

  // Equal but for the links to siblings and children.
  ghost predicate SameNode(x: Node, y: Node) {
    x.name == y.name && x.isDir == y.isDir && x.data == y.data && x.parent == y.parent
  }

  lemma RemovedLinked(fs: Fs, n: int, j: nat, i: int)
    requires CanRemove(fs, n, j) && Used(Removed(fs, n, j), i)
    ensures Linked(Removed(fs, n, j), i)
  {
    var fs', a := Removed(fs, n, j), fs.pool[n].parent;
    RemoveBasics(fs, n, j);
    assert Linked(fs, i) && ChildrenOf(fs, i) && NextIs(fs.pool, fs.kids[a], j);
    hide Tree, Removed, UniqueNames;
    if i == a {
      RemovedParentList(fs, fs', n, j, a);
    } else {
      RemovedOtherList(fs, fs', n, j, a, i);
    }
  }

  lemma RemovedParentList(fs: Fs, fs': Fs, n: int, j: nat, a: int)
    requires Sized(fs) && Sized(fs') && Used(fs, n) && Used(fs, a) && j < |fs.kids[a]| && fs.kids[a][j] == n
    requires Linked(fs, a) && ChildrenOf(fs, a) && fs'.kids[a] == Without(fs.kids[a], j)
    requires forall i :: 0 <= i < MAX_NODES ==> Unlinked(fs, n, j, a, i, fs'.pool[i])
    ensures Linked(fs', a)
  {
    var ks := fs.kids[a];
    assert NextIs(fs.pool, ks, j);
    forall x | 0 <= x < |ks| ensures 0 <= ks[x] < MAX_NODES && Unlinked(fs, n, j, a, ks[x], fs'.pool[ks[x]]) {
      assert NextIs(fs.pool, ks, x);
    }
    ShorterList(fs.pool, fs'.pool, ks, j);
    assert Unlinked(fs, n, j, a, a, fs'.pool[a]);
  }

  lemma RemovedOtherList(fs: Fs, fs': Fs, n: int, j: nat, a: int, i: int)
    requires Sized(fs) && Sized(fs') && Used(fs, n) && Used(fs, a) && j < |fs.kids[a]| && 0 <= i < MAX_NODES && i != a
    requires ChildrenOf(fs, a) && Linked(fs, i) && ChildrenOf(fs, i) && fs'.kids[i] == fs.kids[i]
    requires forall i :: 0 <= i < MAX_NODES ==> Unlinked(fs, n, j, a, i, fs'.pool[i])
    ensures Linked(fs', i)
  {
    var ks := fs.kids[i];
    assert j > 0 ==> fs.kids[a][j - 1] in fs.kids[a];
    assert Unlinked(fs, n, j, a, i, fs'.pool[i]);
    forall x | 0 <= x < |ks| ensures NextIs(fs'.pool, ks, x) {
      assert NextIs(fs.pool, ks, x) && ks[x] in ks;
      assert Unlinked(fs, n, j, a, ks[x], fs'.pool[ks[x]]);
    }
  }

  lemma ShorterList(pool: seq<Node>, pool': seq<Node>, ks: seq<int>, j: nat)
    requires j < |ks| && |pool| == |pool'| && forall x :: 0 <= x < |ks| ==> NextIs(pool, ks, x)
    requires forall a, b :: 0 <= a < b < |ks| ==> ks[a] != ks[b]
    requires forall x :: 0 <= x < |ks| ==> 0 <= ks[x] < |pool|
    requires forall x :: 0 <= x < |ks| ==>
      (pool'[ks[x]].next == if j > 0 && x == j - 1 then pool[ks[j]].next else pool[ks[x]].next)
    ensures forall x :: 0 <= x < |ks| - 1 ==> NextIs(pool', Without(ks, j), x)
  {
    forall x | 0 <= x < |ks| - 1 ensures NextIs(pool', Without(ks, j), x) {
      var y := if x < j then x else x + 1;
      assert Without(ks, j)[x] == ks[y] && NextIs(pool, ks, y) && NextIs(pool, ks, j);
    }
  }

  // What is left of a child list: some of its members, each still a node of the same description.
  lemma RemovedMembers(fs: Fs, n: int, j: nat, i: int)
    requires CanRemove(fs, n, j) && Used(Removed(fs, n, j), i)
    ensures var fs' := Removed(fs, n, j);
      && Sized(fs) && Sized(fs') && Used(fs, i) && fs'.depth == fs.depth
      && (forall k :: k in fs'.kids[i] ==> k in fs.kids[i] && k != n)
      && (forall k :: Used(fs', k) <==> Used(fs, k) && k != n)
      && forall x :: 0 <= x < MAX_NODES ==> SameNode(fs.pool[x], fs'.pool[x])
  {
    RemoveBasics(fs, n, j);
    hide Tree, Removed, Linked, Without, SameNode;
    var fs', ks := Removed(fs, n, j), fs.kids[i];
    forall k | k in fs'.kids[i] ensures k in ks && k != n {
      if i == fs.pool[n].parent { WithoutMembers(ks, j, k); } else { OtherParent(fs, n, i); }
    }
    forall x | 0 <= x < MAX_NODES ensures SameNode(fs.pool[x], fs'.pool[x]) {
      UnlinkedSame(fs, n, j, x, fs'.pool[x]);
    }
  }

  lemma UnlinkedSame(fs: Fs, n: int, j: nat, i: int, x: Node)
    requires ChildAt(fs, n, j) && 0 <= i < MAX_NODES && Unlinked(fs, n, j, fs.pool[n].parent, i, x)
    ensures SameNode(fs.pool[i], x)
  {
  }

  lemma OtherParent(fs: Fs, n: int, i: int)
    requires Tree(fs) && Used(fs, n) && Used(fs, i) && i != fs.pool[n].parent
    ensures n !in fs.kids[i]
  {
    assert ChildrenOf(fs, i);
  }

  lemma RemovedDistinct(fs: Fs, n: int, j: nat, i: int)
    requires CanRemove(fs, n, j) && Used(Removed(fs, n, j), i)
    ensures var ks := Removed(fs, n, j).kids[i]; forall x, y :: 0 <= x < y < |ks| ==> ks[x] != ks[y]
  {
    RemoveBasics(fs, n, j);
    assert ChildrenOf(fs, i);
    hide Tree, Removed, Linked, Without, Unlinked;
    if i == fs.pool[n].parent { WithoutDistinct(fs.kids[i], j); }
  }

  lemma RemovedChildren(fs: Fs, n: int, j: nat, i: int)
    requires CanRemove(fs, n, j) && Used(Removed(fs, n, j), i)
    ensures ChildrenOf(Removed(fs, n, j), i)
    ensures fs.pool[i].isDir ==> UniqueNames(Removed(fs, n, j), i)
  {
    RemovedMembers(fs, n, j, i);
    RemovedDistinct(fs, n, j, i);
    assert ChildrenOf(fs, i) && (fs.pool[i].isDir ==> UniqueNames(fs, i));
    hide Tree, Removed, CanRemove;
    var fs' := Removed(fs, n, j);
    forall k | k in fs'.kids[i]
      ensures Used(fs', k) && k != 0 && fs'.pool[k].parent == i && fs'.depth[k] == fs'.depth[i] + 1
    {
      assert SameNode(fs.pool[k], fs'.pool[k]) && k in fs.kids[i];
    }
    assert ChildrenOf(fs', i);
    if fs.pool[i].isDir {
      forall a, b | a in fs'.kids[i] && b in fs'.kids[i] && a != b ensures fs'.pool[a].name != fs'.pool[b].name {
        assert SameNode(fs.pool[a], fs'.pool[a]) && SameNode(fs.pool[b], fs'.pool[b]);
      }
    }
  }

  lemma WithoutMembers(ks: seq<int>, j: nat, k: int)
    requires j < |ks| && forall a, b :: 0 <= a < b < |ks| ==> ks[a] != ks[b]
    ensures k in Without(ks, j) <==> k in ks && k != ks[j]
  {
    if k in ks && k != ks[j] {
      var x :| 0 <= x < |ks| && ks[x] == k;
      assert Without(ks, j)[if x < j then x else x - 1] == k;
    }
  }

  lemma WithoutDistinct(ks: seq<int>, j: nat)
    requires j < |ks| && forall a, b :: 0 <= a < b < |ks| ==> ks[a] != ks[b]
    ensures forall a, b :: 0 <= a < b < |Without(ks, j)| ==> Without(ks, j)[a] != Without(ks, j)[b]
  {
  }

  lemma RemoveKeepsTree(fs: Fs, n: int, j: nat)
    requires CanRemove(fs, n, j)
    ensures Tree(Removed(fs, n, j))
  {
    var fs', a := Removed(fs, n, j), fs.pool[n].parent;
    RemoveBasics(fs, n, j);
    hide Removed, Linked, ChildrenOf, UniqueNames;
    forall i | Used(fs', i)
      ensures Linked(fs', i) && ChildrenOf(fs', i) && (fs'.pool[i].isDir ==> UniqueNames(fs', i))
    {
      RemovedLinked(fs, n, j, i);
      RemovedChildren(fs, n, j, i);
    }
    forall i | Used(fs', i) && i != 0 ensures Used(fs', fs'.pool[i].parent) && i in fs'.kids[fs'.pool[i].parent] {
      RemovedParent(fs, n, j, i);
    }
  }

  lemma RemovedParent(fs: Fs, n: int, j: nat, i: int)
    requires CanRemove(fs, n, j) && Used(fs, i) && i != n && i != 0
    ensures var q := fs.pool[i].parent;
      q != n && Used(fs, q) && i in Removed(fs, n, j).kids[q]
  {
    var q, a := fs.pool[i].parent, fs.pool[n].parent;
    assert i in fs.kids[q] && ChildrenOf(fs, q) && ChildrenOf(fs, a);
    hide Tree;
    if q == a { WithoutMembers(fs.kids[a], j, i); }
  }

  lemma {:induction false} RemoveKeepsPath(fs: Fs, n: int, j: nat, i: int)
    requires CanRemove(fs, n, j) && Tree(Removed(fs, n, j)) && Used(fs, i) && i != n
    ensures Path(Removed(fs, n, j), i) == Path(fs, i)
    ensures OnDirs(Removed(fs, n, j), i) == OnDirs(fs, i)
    decreases fs.depth[i]
  {
    var fs', q := Removed(fs, n, j), fs.pool[i].parent;
    RemoveBasics(fs, n, j);
    if i != 0 {
      assert i in fs.kids[q] && ChildrenOf(fs, q);
      assert Used(fs, q) && q != n;
      hide Tree, Removed;
      RemoveKeepsPath(fs, n, j, q);
    }
  }

  // Removing takes away exactly the node's own path.
  lemma RemoveChangesView(fs: Fs, n: int, j: nat, p: seq<string>)
    requires CanRemove(fs, n, j) && Tree(Removed(fs, n, j))
    ensures Get(Removed(fs, n, j), p) == if OnDirs(fs, n) && p == Path(fs, n) then None else Get(fs, p)
  {
    var fs' := Removed(fs, n, j);
    RemoveFacts(fs, n, j);
    hide Tree, Removed, CanRemove, FindChild, Sized, EntryOf;
    var r, r' := Lookup(fs, 0, p), Lookup(fs', 0, p);
    LookupPath(fs, n);
    if r' != NULL {
      LookupIsPath(fs', p);
      RemoveKeepsPath(fs, n, j, r');
      LookupPath(fs, r');
    } else if r != NULL && r != n {
      LookupIsPath(fs, p);
      RemoveKeepsPath(fs, n, j, r);
      LookupPath(fs', r);
    } else if r == n {
      LookupIsPath(fs, p);
    }
  }

  lemma RemoveFacts(fs: Fs, n: int, j: nat)
    requires CanRemove(fs, n, j) && Tree(Removed(fs, n, j))
    ensures var fs' := Removed(fs, n, j);
      && Tree(fs) && Sized(fs) && Sized(fs') && Used(fs, n) && Used(fs, 0) && Used(fs', 0)
      && (forall i :: Used(fs', i) <==> Used(fs, i) && i != n)
      && forall i :: Used(fs', i) ==> EntryOf(fs', i) == EntryOf(fs, i)
  {
    RemoveBasics(fs, n, j);
    hide Removed, Linked, ChildrenOf;
  }
}
