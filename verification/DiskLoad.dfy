/**
 Why loading a synced image gives the same file system (sfs_load_from_disk of fs/sfs_disk.c):
 each record, taken in queue order, adds its own path to what the earlier ones restored.
 */
module DiskLoad {
  import opened FsTree
  import opened ScorpionFs
  import opened DiskFormat
  import opened DiskOrder
  import opened DiskImage

  ghost predicate Agrees(d: Option<Entry>, e: Option<Entry>) {
    d == None || (e != None && d.value.Dir? == e.value.Dir?)
  }

  // The default entries are there, with their kinds.
  ghost predicate DefaultsIn(fs: Fs)
    requires Tree(fs)
  {
    forall p :: Agrees(DefaultView(p, true), Get(fs, p))
  }

  ghost predicate SmallFiles(fs: Fs)
    requires Tree(fs)
  {
    forall i :: Used(fs, i) ==> |fs.pool[i].data| <= BLOCK
  }

  // The path of one of the first n queued nodes.
  ghost predicate Covered(src: Fs, q: seq<int>, n: nat, p: seq<string>)
    requires Tree(src) && n <= |q| && forall j :: 0 <= j < |q| ==> Used(src, q[j])
  {
    exists j :: 0 <= j < n && Path(src, q[j]) == p
  }

  // Nodes under the same path in both file systems.
  ghost predicate SamePath(src: Fs, i: int, cur: Fs, k: int)
    requires Tree(src) && Used(src, i) && Tree(cur)
  {
    k != NULL && Lookup(cur, 0, Path(src, i)) == k
  }

  // After n records: their paths show what they show in src, the others what Init made.
  ghost predicate Loaded(src: Fs, q: seq<int>, par: seq<nat>, n: nat, cur: Fs, nodeMap: seq<int>) {
    && Tree(src) && Queue(src, q, par) && 0 < n <= |q| && n <= |nodeMap|
    && Tree(cur) && AllOnDirs(cur)
    && MapFits(src, q, n, cur, nodeMap) && ViewFits(src, q, n, cur)
  }

  ghost predicate MapFits(src: Fs, q: seq<int>, n: nat, cur: Fs, nodeMap: seq<int>)
    requires Tree(src) && Tree(cur) && n <= |q| && n <= |nodeMap| && forall j :: 0 <= j < |q| ==> Used(src, q[j])
  {
    forall j :: 0 <= j < n ==> SamePath(src, q[j], cur, nodeMap[j])
  }

  ghost predicate ViewFits(src: Fs, q: seq<int>, n: nat, cur: Fs)
    requires Tree(src) && Tree(cur) && n <= |q| && forall j :: 0 <= j < |q| ==> Used(src, q[j])
  {
    forall p :: Get(cur, p) == if Covered(src, q, n, p) then Get(src, p) else DefaultView(p, true)
  }

  // The n-th record has been restored, as `node`.
  ghost predicate Restored(src: Fs, i: int, cur: Fs, cur': Fs, node: int)
    requires Tree(src) && Used(src, i) && Tree(cur) && Tree(cur')
  {
    && AllOnDirs(cur') && SamePath(src, i, cur', node)
    && Sets(cur, cur', Path(src, i), EntryOf(src, i))
    && KeepsLookups(cur, cur')
  }

  ghost predicate KeepsLookups(cur: Fs, cur': Fs)
    requires Tree(cur) && Tree(cur')
  {
    forall p :: Lookup(cur, 0, p) != NULL ==> Lookup(cur', 0, p) == Lookup(cur, 0, p)
  }

  // ---- Paths of queued nodes ----

  lemma QueuedGet(src: Fs, q: seq<int>, par: seq<nat>, j: nat)
    requires Tree(src) && Queue(src, q, par) && j < |q|
    ensures Sized(src) && Used(src, q[j]) && OnDirs(src, q[j])
    ensures Lookup(src, 0, Path(src, q[j])) == q[j] && Get(src, Path(src, q[j])) == Some(EntryOf(src, q[j]))
  {
    SizedTree(src);
    QueuedOnDirs(src, q, par, j);
    hide Tree, Queue, OnDirs;
    LookupPath(src, q[j]);
  }

  lemma NewPath(src: Fs, q: seq<int>, par: seq<nat>, n: nat)
    requires Tree(src) && Queue(src, q, par) && n < |q|
    ensures !Covered(src, q, n, Path(src, q[n]))
  {
    assert forall j :: 0 <= j < |q| ==> Used(src, q[j]);
    hide Tree, Path;
    QueuedGet(src, q, par, n);
    forall j | 0 <= j < n ensures Path(src, q[j]) != Path(src, q[n]) {
      QueuedGet(src, q, par, j);
    }
  }

  lemma CoveredNext(src: Fs, q: seq<int>, n: nat, p: seq<string>)
    requires Tree(src) && n < |q| && forall j :: 0 <= j < |q| ==> Used(src, q[j])
    ensures Covered(src, q, n + 1, p) <==> Covered(src, q, n, p) || p == Path(src, q[n])
  {
    hide Tree, Path;
    if Covered(src, q, n, p) {
      var j :| 0 <= j < n && Path(src, q[j]) == p;
      assert j < n + 1;
    }
    if p == Path(src, q[n]) { assert n < n + 1; }
  }

  lemma LoadedNext(src: Fs, q: seq<int>, par: seq<nat>, n: nat, cur: Fs, nodeMap: seq<int>, cur': Fs, nodeMap': seq<int>, node: int)
    requires Loaded(src, q, par, n, cur, nodeMap) && n < |q| && n < |nodeMap| && Tree(cur')
    requires Used(src, q[n]) && Restored(src, q[n], cur, cur', node) && nodeMap' == nodeMap[n := node]
    ensures Loaded(src, q, par, n + 1, cur', nodeMap')
  {
    AllUsed(src, q, par);
    QueuedGet(src, q, par, n);
    hide Tree, Queue, AllOnDirs, MapFits, ViewFits, Sets, KeepsLookups, SamePath, EntryOf, Path, Get;
    MapNext(src, q, n, cur, nodeMap, cur', nodeMap', node);
    ViewNext(src, q, n, cur, cur');
  }

  lemma MapNext(src: Fs, q: seq<int>, n: nat, cur: Fs, nodeMap: seq<int>, cur': Fs, nodeMap': seq<int>, node: int)
    requires Tree(src) && Tree(cur) && Tree(cur') && n < |q| && forall j :: 0 <= j < |q| ==> Used(src, q[j])
    requires n < |nodeMap| && MapFits(src, q, n, cur, nodeMap) && KeepsLookups(cur, cur')
    requires SamePath(src, q[n], cur', node) && nodeMap' == nodeMap[n := node]
    ensures MapFits(src, q, n + 1, cur', nodeMap')
  {
    hide Tree, Path, Lookup;
    forall j | 0 <= j < n + 1 ensures SamePath(src, q[j], cur', nodeMap'[j]) {
      if j < n { assert SamePath(src, q[j], cur, nodeMap[j]); }
    }
  }

  lemma ViewNext(src: Fs, q: seq<int>, n: nat, cur: Fs, cur': Fs)
    requires Tree(src) && Tree(cur) && Tree(cur') && n < |q| && forall j :: 0 <= j < |q| ==> Used(src, q[j])
    requires ViewFits(src, q, n, cur) && Sized(src)
    requires var e := EntryOf(src, q[n]);
      Get(src, Path(src, q[n])) == Some(e) && Sets(cur, cur', Path(src, q[n]), e)
    ensures ViewFits(src, q, n + 1, cur')
  {
    hide Tree, Path, Get, Covered, EntryOf, DefaultView;
    forall p ensures Get(cur', p) == if Covered(src, q, n + 1, p) then Get(src, p) else DefaultView(p, true) {
      CoveredNext(src, q, n, p);
    }
  }

  lemma AllUsed(src: Fs, q: seq<int>, par: seq<nat>)
    requires Tree(src) && Queue(src, q, par)
    ensures Sized(src) && forall j :: 0 <= j < |q| ==> Used(src, q[j])
  {
  }

  // ---- The place of the n-th record ----

  lemma ParentFound(src: Fs, q: seq<int>, par: seq<nat>, n: nat, cur: Fs, nodeMap: seq<int>)
    requires Loaded(src, q, par, n, cur, nodeMap) && n < |q|
    ensures Sized(src) && Used(src, q[n]) && Sized(cur) && par[n] < n
    ensures var m, path := nodeMap[par[n]], Path(src, q[n]);
      && Used(cur, m) && cur.pool[m].isDir && Path(cur, m) + [src.pool[q[n]].name] == path
      && FindChild(cur, m, src.pool[q[n]].name) == Lookup(cur, 0, path)
  {
    PlaceOf(src, q, par, n);
    SizedTree(cur);
    QueuedGet(src, q, par, par[n]);
    var a, m, name := q[par[n]], nodeMap[par[n]], src.pool[q[n]].name;
    ParentShown(src, q, par, n, cur, nodeMap);
    hide Tree, Queue, FindChild, Path, OnDirs, Loaded;
    DirAt(cur, Path(src, a), m);
    LookupAppend(cur, 0, Path(src, a), name);
  }

  lemma DirAt(cur: Fs, p: seq<string>, m: int)
    requires Tree(cur) && Get(cur, p) == Some(Dir) && Used(cur, 0) && Lookup(cur, 0, p) == m
    ensures Sized(cur) && Used(cur, m) && cur.pool[m].isDir && Path(cur, m) == p
  {
    SizedTree(cur);
    LookupIsPath(cur, p);
  }

  lemma ParentShown(src: Fs, q: seq<int>, par: seq<nat>, n: nat, cur: Fs, nodeMap: seq<int>)
    requires Loaded(src, q, par, n, cur, nodeMap) && n < |q| && Sized(src) && par[n] < n && Used(src, q[par[n]])
    ensures Used(cur, 0) && SamePath(src, q[par[n]], cur, nodeMap[par[n]])
    ensures Get(cur, Path(src, q[par[n]])) == Get(src, Path(src, q[par[n]]))
  {
    AllUsed(src, q, par);
    SizedTree(cur);
    assert Covered(src, q, n, Path(src, q[par[n]]));
    hide Tree, Queue, DefaultView, Path, Covered;
  }

  lemma NotYetShown(src: Fs, q: seq<int>, par: seq<nat>, n: nat, cur: Fs, nodeMap: seq<int>)
    requires Loaded(src, q, par, n, cur, nodeMap) && n < |q|
    ensures Used(src, q[n]) && Get(cur, Path(src, q[n])) == DefaultView(Path(src, q[n]), true)
  {
    AllUsed(src, q, par);
    NewPath(src, q, par, n);
    hide Tree, Queue, DefaultView, Path, Covered;
  }

  lemma PlaceOf(src: Fs, q: seq<int>, par: seq<nat>, n: nat)
    requires Tree(src) && Queue(src, q, par) && 0 < n < |q|
    ensures Sized(src) && Used(src, q[n]) && par[n] < n && Used(src, q[par[n]]) && src.pool[q[par[n]]].isDir
    ensures Path(src, q[n]) == Path(src, q[par[n]]) + [src.pool[q[n]].name]
  {
    assert QueuedUnder(src, q, par, n);
    assert q[n] != 0;
  }

  // ---- Room ----

  // Every path restored so far is one of src's.
  lemma KnownPath(src: Fs, q: seq<int>, par: seq<nat>, n: nat, cur: Fs, nodeMap: seq<int>, i: int)
    requires Loaded(src, q, par, n, cur, nodeMap) && DefaultsIn(src) && Used(cur, i)
    ensures var k := Lookup(src, 0, Path(cur, i));
      k != NULL && Path(src, k) == Path(cur, i) && Lookup(cur, 0, Path(cur, i)) == i
  {
    assert OnDirs(cur, i);
    LookupPath(cur, i);
    AllUsed(src, q, par);
    var p := Path(cur, i);
    assert Get(cur, p) == Some(EntryOf(cur, i));
    if Covered(src, q, n, p) {
      var j :| 0 <= j < n && Path(src, q[j]) == p;
      QueuedGet(src, q, par, j);
    } else {
      assert Agrees(DefaultView(p, true), Get(src, p));
    }
    hide Tree, Queue;
    LookupIsPath(src, p);
  }

  // k is the node of src that node i of the restored tree came from, and it is not x.
  ghost predicate From(src: Fs, cur: Fs, i: int, k: int, x: int)
    requires Tree(src) && Tree(cur) && Used(cur, i)
  {
    Used(src, k) && k != x && Path(src, k) == Path(cur, i) && Lookup(cur, 0, Path(cur, i)) == i
  }

  // A record whose path is not there yet finds a free slot.
  lemma SlotFree(src: Fs, q: seq<int>, par: seq<nat>, n: nat, cur: Fs, nodeMap: seq<int>)
    requires Loaded(src, q, par, n, cur, nodeMap) && DefaultsIn(src) && n < |q|
    requires Sized(src) && Used(src, q[n]) && Lookup(cur, 0, Path(src, q[n])) == NULL
    ensures Sized(cur) && exists i :: 0 <= i < MAX_NODES && !cur.used[i]
  {
    SizedTree(cur);
    QueuedGet(src, q, par, n);
    assert Tree(src) && Tree(cur) && 0 <= q[n] < MAX_NODES;
    hide Tree, Path, Lookup, DefaultsIn, Loaded;
    if forall i :: 0 <= i < MAX_NODES ==> cur.used[i] {
      var g: seq<int> := [];
      while |g| < MAX_NODES
        invariant |g| <= MAX_NODES && forall i :: 0 <= i < |g| ==> Used(cur, i) && From(src, cur, i, g[i], q[n])
      {
        assert Used(cur, |g|);
        KnownPath(src, q, par, n, cur, nodeMap, |g|);
        g := g + [Lookup(src, 0, Path(cur, |g|))];
      }
      OriginsDistinct(src, cur, g, q[n]);
      DistinctBound(g + [q[n]], MAX_NODES);
    }
  }

  lemma OriginsDistinct(src: Fs, cur: Fs, g: seq<int>, x: int)
    requires Tree(src) && Tree(cur) && 0 <= x < MAX_NODES
    requires forall i :: 0 <= i < |g| ==> Used(cur, i) && From(src, cur, i, g[i], x)
    ensures Distinct(g + [x]) && forall j :: 0 <= j < |g + [x]| ==> 0 <= (g + [x])[j] < MAX_NODES
  {
    hide Tree, Path, Lookup;
    forall a, b | 0 <= a < b < |g + [x]| ensures (g + [x])[a] != (g + [x])[b] {
      assert From(src, cur, a, g[a], x) && (b < |g| ==> From(src, cur, b, g[b], x));
    }
    forall j | 0 <= j < |g + [x]| ensures 0 <= (g + [x])[j] < MAX_NODES {
      if j < |g| { assert From(src, cur, j, g[j], x); }
    }
  }

  // ---- The three ways a record is restored ----

  lemma DirFound(src: Fs, q: seq<int>, par: seq<nat>, n: nat, cur: Fs, nodeMap: seq<int>)
    requires Loaded(src, q, par, n, cur, nodeMap) && DefaultsIn(src) && n < |q|
    requires Sized(src) && Used(src, q[n]) && Lookup(cur, 0, Path(src, q[n])) != NULL
    ensures var k := Lookup(cur, 0, Path(src, q[n]));
      && Sized(cur) && Used(cur, k) && cur.pool[k].isDir == src.pool[q[n]].isDir
      && (src.pool[q[n]].isDir ==> Restored(src, q[n], cur, cur, k))
  {
    SizedTree(cur);
    NotYetShown(src, q, par, n, cur, nodeMap);
    QueuedGet(src, q, par, n);
    var p := Path(src, q[n]);
    assert Agrees(DefaultView(p, true), Get(src, p)) && Get(cur, p) == Some(EntryOf(cur, Lookup(cur, 0, p)));
    hide Tree, Queue, Path, DefaultView, DefaultsIn;
  }

  lemma NodeAdded(src: Fs, i: int, cur: Fs, m: int, k: int, node: Node)
    requires Tree(src) && Used(src, i) && CanAdd(cur, m, k, node) && AllOnDirs(cur) && cur.pool[m].isDir
    requires Path(src, i) == Path(cur, m) + [src.pool[i].name]
    requires node == Node(src.pool[i].name, src.pool[i].isDir, if src.pool[i].isDir then [] else src.pool[i].data, NULL, NULL, NULL)
    ensures Tree(Added(cur, m, k, node)) && Restored(src, i, cur, Added(cur, m, k, node), k)
  {
    var cur' := Added(cur, m, k, node);
    AddKeepsTree(cur, m, k, node);
    AddFacts(cur, m, k, node);
    hide Tree, Added, FindChild, CanAdd, Path, OnDirs, Lookup, Get;
    ViewAfterAdd(cur, m, k, node, Path(src, i));
    LookupPath(cur', k);
    forall p | Lookup(cur, 0, p) != NULL ensures Lookup(cur', 0, p) == Lookup(cur, 0, p) {
      AddKeepsLookup(cur, m, k, node, p);
    }
  }

  lemma AddFacts(fs: Fs, m: int, k: int, node: Node)
    requires CanAdd(fs, m, k, node) && Tree(Added(fs, m, k, node))
    ensures Tree(fs) && Sized(fs) && Used(fs, 0) && Used(Added(fs, m, k, node), k) && k != NULL
    ensures Path(Added(fs, m, k, node), k) == Path(fs, m) + [node.name]
  {
    NodeFacts(fs, m, k, node);
    AddKeepsPaths(fs, m, k, node, m);
  }

  lemma AddKeepsLookup(fs: Fs, m: int, k: int, node: Node, p: seq<string>)
    requires CanAdd(fs, m, k, node) && Tree(Added(fs, m, k, node)) && Used(fs, 0) && Lookup(fs, 0, p) != NULL
    ensures Lookup(Added(fs, m, k, node), 0, p) == Lookup(fs, 0, p)
  {
    NodeFacts(fs, m, k, node);
    hide Tree, Added, FindChild, CanAdd, Path, OnDirs, Lookup;
    LookupIsPath(fs, p);
    AddKeepsPaths(fs, m, k, node, Lookup(fs, 0, p));
    LookupPath(Added(fs, m, k, node), Lookup(fs, 0, p));
  }

  lemma FileRewritten(src: Fs, i: int, cur: Fs, k: int)
    requires Tree(src) && Used(src, i) && !src.pool[i].isDir && Tree(cur) && AllOnDirs(cur)
    requires Used(cur, k) && !cur.pool[k].isDir && SamePath(src, i, cur, k)
    ensures var cur' := Rewritten(cur, k, src.pool[i].data);
      Tree(cur') && Restored(src, i, cur, cur', k)
  {
    var data, path := src.pool[i].data, Path(src, i);
    var cur' := Rewritten(cur, k, data);
    RewriteKeepsTree(cur, k, data);
    SizedTree(cur);
    assert OnDirs(cur, k);
    hide Tree, Rewritten, OnDirs, Path;
    LookupIsPath(cur, path);
    hide Lookup, AllOnDirs, Get, Sets;
    RewriteSets(cur, k, data);
    forall p | Lookup(cur, 0, p) != NULL ensures Lookup(cur', 0, p) == Lookup(cur, 0, p) {
      RewriteKeepsLookup(cur, k, data, p);
    }
  }

  lemma RewriteSets(fs: Fs, k: int, data: seq<byte>)
    requires Tree(fs) && Used(fs, k) && !fs.pool[k].isDir && AllOnDirs(fs) && Tree(Rewritten(fs, k, data))
    ensures Sets(fs, Rewritten(fs, k, data), Path(fs, k), File(data)) && AllOnDirs(Rewritten(fs, k, data))
  {
    RewriteFacts(fs, k, data);
    hide Tree, Rewritten, OnDirs, Path, Get;
    forall p ensures Get(Rewritten(fs, k, data), p) == if p == Path(fs, k) then Some(File(data)) else Get(fs, p) {
      RewriteChangesView(fs, k, data, p);
    }
    forall x | Used(Rewritten(fs, k, data), x) ensures OnDirs(Rewritten(fs, k, data), x) {
      RewriteKeepsPath(fs, k, data, x);
    }
  }

  lemma RewriteKeepsLookup(fs: Fs, k: int, data: seq<byte>, p: seq<string>)
    requires Tree(fs) && Used(fs, k) && Tree(Rewritten(fs, k, data)) && Used(fs, 0) && Lookup(fs, 0, p) != NULL
    ensures Used(Rewritten(fs, k, data), 0) && Lookup(Rewritten(fs, k, data), 0, p) == Lookup(fs, 0, p)
  {
    RewriteFacts(fs, k, data);
    hide Tree, Rewritten, FindChild, Path, OnDirs, Lookup;
    LookupIsPath(fs, p);
    RewriteKeepsPath(fs, k, data, Lookup(fs, 0, p));
    LookupPath(Rewritten(fs, k, data), Lookup(fs, 0, p));
  }

  // ---- First and last ----

  lemma RootLoaded(src: Fs, q: seq<int>, par: seq<nat>, cur: Fs, nodeMap: seq<int>)
    requires Tree(src) && Queue(src, q, par) && Tree(cur) && AllOnDirs(cur) && |nodeMap| > 0 && nodeMap[0] == 0
    requires forall p :: Get(cur, p) == DefaultView(p, true)
    ensures Loaded(src, q, par, 1, cur, nodeMap)
  {
    SizedTree(src);
    SizedTree(cur);
    AllUsed(src, q, par);
    assert q[0] == 0 && src.pool[0].isDir;
    hide Tree, Queue, AllOnDirs, DefaultView;
    assert Path(src, 0) == [] && Get(src, []) == Some(Dir);
    assert SamePath(src, q[0], cur, nodeMap[0]);
    hide Get, SamePath;
    forall p ensures Get(cur, p) == if Covered(src, q, 1, p) then Get(src, p) else DefaultView(p, true) {
      RootCovered(src, q, p);
    }
    assert DefaultView([], true) == Some(Dir) by { DefaultRoot(); }
  }

  lemma RootCovered(src: Fs, q: seq<int>, p: seq<string>)
    requires Tree(src) && |q| > 0 && q[0] == 0 && forall j :: 0 <= j < |q| ==> Used(src, q[j])
    ensures Covered(src, q, 1, p) <==> p == []
  {
    assert Path(src, q[0]) == [];
  }

  lemma DefaultRoot()
    ensures DefaultView([], true) == Some(Dir)
  {
  }

  lemma ReachedIsCovered(src: Fs, q: seq<int>, par: seq<nat>, p: seq<string>)
    requires Tree(src) && Enumerates(src, q, par) && Get(src, p) != None
    ensures forall j :: 0 <= j < |q| ==> Used(src, q[j])
    ensures Covered(src, q, |q|, p)
  {
    AllUsed(src, q, par);
    SizedTree(src);
    hide Tree, Queue;
    LookupIsPath(src, p);
    var i := Lookup(src, 0, p);
    var j :| 0 <= j < |q| && q[j] == i;
    assert Path(src, q[j]) == p;
  }

  // When all records are restored every path shows what it shows in src.
  lemma AllLoaded(src: Fs, q: seq<int>, par: seq<nat>, cur: Fs, nodeMap: seq<int>, p: seq<string>)
    requires Loaded(src, q, par, |q|, cur, nodeMap) && DefaultsIn(src) && Enumerates(src, q, par)
    ensures Get(cur, p) == Get(src, p)
  {
    AllUsed(src, q, par);
    assert Agrees(DefaultView(p, true), Get(src, p));
    if Get(src, p) != None { ReachedIsCovered(src, q, par, p); }
  }

  // ---- One record ----

  // What creating or finding the entry `name` under m did, `data` being what a file was given.
  ghost predicate Put(f: Fs, f': Fs, m: int, name: string, isDir: bool, data: seq<byte>, node: int) {
    && Tree(f) && Tree(f') && Used(f, m)
    && var k := FindChild(f, m, name);
    if k != NULL && isDir && f.pool[k].isDir then node == k && f' == f
    else if k != NULL && !isDir then node == k && f' == Rewritten(f, k, data)
    else if node == NULL then f' == f && (k != NULL || forall i :: 0 <= i < MAX_NODES ==> f.used[i])
    else
      var x := Node(name, isDir, if isDir then [] else data, NULL, NULL, NULL);
      CanAdd(f, m, node, x) && f' == Added(f, m, node, x)
  }

  lemma PutLoads(src: Fs, q: seq<int>, par: seq<nat>, n: nat, cur: Fs, nodeMap: seq<int>, cur': Fs, node: int)
    requires Loaded(src, q, par, n, cur, nodeMap) && DefaultsIn(src) && n < |q| && n < |nodeMap| && par[n] < n
    requires Sized(src) && Used(src, q[n])
    requires var x := src.pool[q[n]]; Put(cur, cur', nodeMap[par[n]], x.name, x.isDir, x.data, node)
    ensures Loaded(src, q, par, n + 1, cur', nodeMap[n := node])
  {
    var i, m, path := q[n], nodeMap[par[n]], Path(src, q[n]);
    ParentFound(src, q, par, n, cur, nodeMap);
    hide Tree, Queue, Path, FindChild, Lookup, DefaultsIn, Restored, CanAdd, Added, Rewritten;
    var k := Lookup(cur, 0, path);
    if k != NULL {
      DirFound(src, q, par, n, cur, nodeMap);
      if !src.pool[i].isDir { FileRewritten(src, i, cur, k); }
    } else {
      SlotFree(src, q, par, n, cur, nodeMap);
      NodeAdded(src, i, cur, m, node, Node(src.pool[i].name, src.pool[i].isDir, if src.pool[i].isDir then [] else src.pool[i].data, NULL, NULL, NULL));
    }
    LoadedNext(src, q, par, n, cur, nodeMap, cur', nodeMap[n := node], node);
  }

  // Before the first record there is what Init made.
  ghost predicate LoadedTo(src: Fs, q: seq<int>, par: seq<nat>, n: nat, cur: Fs, nodeMap: seq<int>) {
    if n == 0 then
      Tree(src) && Queue(src, q, par) && Tree(cur) && AllOnDirs(cur) && forall p :: Get(cur, p) == DefaultView(p, true)
    else Loaded(src, q, par, n, cur, nodeMap)
  }

  // ---- Reading the image ----

  function Wrap32(x: nat): (r: nat)
    ensures x < 0x1_0000_0000 ==> r == x
  {
    x % 0x1_0000_0000
  }

  function RecordAt(s: Sector, slot: nat): (b: seq<byte>)
    requires slot < 4
    ensures |b| == RECORD
  {
    s[RECORD * slot..RECORD * slot + RECORD]
  }

  // A record that can be loaded: its name ends within the field, its file fits a block.
  ghost predicate RecordOk(b: seq<byte>)
    requires |b| == RECORD
  {
    IsValid(b) ==> 0 in b[..64] && (b[64] == 1 || ReadRecord(b).size <= BLOCK || ReadRecord(b).block == NULL_IDX)
  }

  // The file content a record stands for is on the disk.
  ghost predicate BlockAt(disk: seq<Sector>, base: nat, block: nat, data: seq<byte>) {
    forall s :: 0 <= s < 8 ==> SectorAt(disk, Wrap32(base + block * 8 + s), DataSector(data, s))
  }

  // The sector of a block's s-th part, in the source's 32-bit arithmetic.
  function BlockSector(base: nat, block: nat, s: nat): nat {
    Wrap32(base + block * 8 + s)
  }

  // All of a block is on the disk.
  ghost predicate OnDisk(disk: seq<Sector>, base: nat, block: nat, n: nat) {
    forall s :: 0 <= s < n ==> BlockSector(base, block, s) < |disk|
  }

  // The first n sectors of a block have been copied to a buffer.
  ghost predicate Copied(buf: seq<byte>, disk: seq<Sector>, base: nat, block: nat, n: nat) {
    && OnDisk(disk, base, block, n) && SECTOR * n <= |buf|
    && forall s, x :: 0 <= s < n && 0 <= x < SECTOR ==> SectorByte(buf, s, x) == disk[BlockSector(base, block, s)][x]
  }

  ghost function SectorByte(buf: seq<byte>, s: nat, x: nat): byte
    requires SECTOR * s + x < |buf|
  {
    buf[SECTOR * s + x]
  }

  ghost predicate SectorAt(disk: seq<Sector>, x: nat, s: Sector) {
    x < |disk| && disk[x] == s
  }

  // Record n is in its slot and its file's content in its block.
  lemma ImageRecord(disk: seq<Sector>, lba: nat, src: Fs, q: seq<int>, par: seq<nat>, i: nat, slot: nat)
    requires ImageIs(disk, lba, src, q, par) && i < TABLE_SECTORS && slot < 4 && |disk| <= 0x1_0000_0000
    ensures lba + 1 + i < |disk|
    ensures var n := 4 * i + slot;
      RecordAt(disk[lba + 1 + i], slot) == if n < |q| then RecordBytes(RecordOf(src, q, par, n)) else Zeros(RECORD)
  {
    hide Syncable, RecordOf, RecordBytes, DataOf, SuperBytes;
    SlotAt(src, q, par, 4 * i, 4, slot);
  }

  lemma ImageBlock(disk: seq<Sector>, lba: nat, src: Fs, q: seq<int>, par: seq<nat>, n: nat)
    requires ImageIs(disk, lba, src, q, par) && n < |q| && |disk| <= 0x1_0000_0000
    ensures Sized(src) && Used(src, q[n])
    ensures var r := RecordOf(src, q, par, n);
      HasData(src, q[n]) ==> r.block != NULL_IDX && BlockAt(disk, lba + 1 + TABLE_SECTORS, r.block, src.pool[q[n]].data)
  {
    hide Tree, Syncable, DataIs, TableIs, SuperBytes, BlockAt, RecordOf, DataOf;
    RecordBlock(src, q, par, n);
    if HasData(src, q[n]) {
      assert q[..|q|] == q;
      BlockHolds(src, q, n, |q|);
      BlockInData(disk, lba + 1 + TABLE_SECTORS, DataOf(src, q), |DataOf(src, q[..n])|);
    }
  }

  lemma RecordBlock(src: Fs, q: seq<int>, par: seq<nat>, n: nat)
    requires Syncable(src, q, par) && n < |q|
    ensures Sized(src) && Within(q) && Used(src, q[n])
    ensures HasData(src, q[n]) ==> RecordOf(src, q, par, n).block == |DataOf(src, q[..n])| < NULL_IDX
  {
    AllUsed(src, q, par);
    hide Tree, DataOf, Storable, CString;
  }

  lemma BlockInData(disk: seq<Sector>, base: nat, blocks: seq<seq<byte>>, k: nat)
    requires DataIs(disk, base, blocks) && k < |blocks| && |disk| <= 0x1_0000_0000
    ensures BlockAt(disk, base, k, blocks[k])
  {
    hide DataSector;
    forall s | 0 <= s < 8 ensures SectorAt(disk, Wrap32(base + k * 8 + s), DataSector(blocks[k], s)) {
      var x := base + k * 8 + s;
      assert x < base + 8 * |blocks| && (x - base) / 8 == k && (x - base) % 8 == s;
    }
  }

  // Everything that can be reached is in the queue, and every file fits its block.
  ghost predicate Saved(src: Fs, q: seq<int>, par: seq<nat>) {
    Syncable(src, q, par) && Enumerates(src, q, par) && SmallFiles(src)
  }

  // A load will restore it: besides, the entries that Init makes are all there.
  ghost predicate Restorable(src: Fs, q: seq<int>, par: seq<nat>) {
    Saved(src, q, par) && DefaultsIn(src)
  }

  ghost predicate MapValid(f: Fs, nodeMap: seq<int>)
    requires Sized(f)
  {
    forall j :: 0 <= j < |nodeMap| ==> nodeMap[j] == NULL || Used(f, nodeMap[j])
  }

  lemma PutKeepsMap(f: Fs, f': Fs, m: int, name: string, isDir: bool, data: seq<byte>, node: int, nodeMap: seq<int>, n: nat)
    requires Put(f, f', m, name, isDir, data, node) && Sized(f) && MapValid(f, nodeMap) && n < |nodeMap|
    ensures Sized(f') && MapValid(f', nodeMap[n := node])
  {
    PutUsed(f, f', m, name, isDir, data, node);
    hide Put, Used;
  }

  // Nothing a load does takes away an entry or changes its kind.
  lemma PutKeepsDefaults(f: Fs, f': Fs, m: int, name: string, isDir: bool, data: seq<byte>, node: int)
    requires Put(f, f', m, name, isDir, data, node) && DefaultsIn(f)
    ensures DefaultsIn(f')
  {
    PutUsed(f, f', m, name, isDir, data, node);
    hide Tree, Get, DefaultView, Put;
    forall p ensures Agrees(DefaultView(p, true), Get(f', p)) {
      assert Agrees(DefaultView(p, true), Get(f, p));
      if Get(f, p) != None { PutKeepsKind(f, f', m, name, isDir, data, node, p); }
    }
  }

  lemma PutKeepsKind(f: Fs, f': Fs, m: int, name: string, isDir: bool, data: seq<byte>, node: int, p: seq<string>)
    requires Put(f, f', m, name, isDir, data, node) && Get(f, p) != None
    ensures Get(f', p) != None && Get(f', p).value.Dir? == Get(f, p).value.Dir?
  {
    var k := FindChild(f, m, name);
    SizedTree(f);
    hide Tree, FindChild, Lookup;
    if k != NULL && !isDir {
      ContentKeepsKind(f, k, data, p);
    } else if f' != f {
      var x := Node(name, isDir, if isDir then [] else data, NULL, NULL, NULL);
      PathFree(f, m, name, p);
      hide Added, Path, OnDirs, Get;
      AddChangesView(f, m, node, x, p);
    }
  }

  lemma ContentKeepsKind(f: Fs, k: int, data: seq<byte>, p: seq<string>)
    requires Tree(f) && Used(f, k) && Tree(Rewritten(f, k, data)) && Get(f, p) != None
    ensures var g := Get(Rewritten(f, k, data), p); g != None && g.value.Dir? == Get(f, p).value.Dir?
  {
    SizedTree(f);
    hide Tree, Rewritten;
    RewriteChangesView(f, k, data, p);
    LookupPath(f, k);
  }

  lemma PathFree(f: Fs, m: int, name: string, p: seq<string>)
    requires Tree(f) && Used(f, m) && FindChild(f, m, name) == NULL && Get(f, p) != None
    ensures !(OnDirs(f, m) && p == Path(f, m) + [name])
  {
    SizedTree(f);
    hide Tree, FindChild;
    LookupAppend(f, 0, Path(f, m), name);
    LookupPath(f, m);
  }

  lemma PutUsed(f: Fs, f': Fs, m: int, name: string, isDir: bool, data: seq<byte>, node: int)
    requires Put(f, f', m, name, isDir, data, node)
    ensures Sized(f) && Sized(f') && (node == NULL || Used(f', node)) && forall i :: Used(f, i) ==> Used(f', i)
  {
    SizedTree(f);
    SizedTree(f');
    hide Tree, FindChild;
  }

  // The parent of a loaded node; the root when the map has none.
  function ParentOf(nodeMap: seq<int>, k: nat): int {
    if k < |nodeMap| % 0x1_0000 && nodeMap[k] != NULL then nodeMap[k] else 0
  }

  // The disk holds `data` as the content of the file r describes.
  ghost predicate Describes(r: Record, data: seq<byte>, disk: seq<Sector>, base: nat) {
    r.size == |data| <= BLOCK && (data != [] ==> r.block != NULL_IDX && BlockAt(disk, base, r.block, data))
  }

  // The n-th record of src, as it stands in the node table, and its content on the disk.
  ghost predicate EntryIs(src: Fs, q: seq<int>, par: seq<nat>, n: nat, b: seq<byte>, disk: seq<Sector>, base: nat) {
    && Saved(src, q, par) && n < |q| && b == RecordBytes(RecordOf(src, q, par, n))
    && Sized(src) && Used(src, q[n])
    && (HasData(src, q[n]) ==>
          RecordOf(src, q, par, n).block != NULL_IDX
          && BlockAt(disk, base, RecordOf(src, q, par, n).block, src.pool[q[n]].data))
  }

  // Everything is in order for loading record n.
  ghost predicate Ready(src: Fs, q: seq<int>, par: seq<nat>, n: nat, b: seq<byte>, disk: seq<Sector>, base: nat,
                        cur: Fs, nodeMap: seq<int>) {
    && EntryIs(src, q, par, n, b, disk, base) && Restorable(src, q, par)
    && |nodeMap| == |q| && LoadedTo(src, q, par, n, cur, nodeMap)
  }

  lemma EntryReads(src: Fs, q: seq<int>, par: seq<nat>, n: nat, b: seq<byte>, disk: seq<Sector>, base: nat)
    requires EntryIs(src, q, par, n, b, disk, base)
    ensures var r, x := ReadRecord(b), src.pool[q[n]];
      && r.name == x.name && r.isDir == x.isDir && r.parent == par[n]
      && (!x.isDir ==> Describes(r, x.data, disk, base))
    ensures |q| <= MAX_NODES && (n > 0 ==> par[n] < n)
  {
    hide RecordBytes, ReadRecord, DataOf, BlockAt, Storable;
    RecordReads(RecordOf(src, q, par, n));
    if n > 0 { PlaceOf(src, q, par, n); }
    assert |src.pool[q[n]].data| <= BLOCK by { assert SmallFiles(src); }
  }

  lemma EntryRoot(src: Fs, q: seq<int>, par: seq<nat>, b: seq<byte>, disk: seq<Sector>, base: nat, f: Fs, nodeMap: seq<int>)
    requires Ready(src, q, par, 0, b, disk, base, f, nodeMap) && |nodeMap| > 0
    ensures LoadedTo(src, q, par, 1, f, nodeMap[0 := 0])
  {
    hide Tree, Queue, Get;
    RootLoaded(src, q, par, f, nodeMap[0 := 0]);
  }

  lemma EntryLoads(src: Fs, q: seq<int>, par: seq<nat>, n: nat, b: seq<byte>, disk: seq<Sector>, base: nat,
                   cur: Fs, nodeMap: seq<int>, cur': Fs, data: seq<byte>, node: int)
    requires Ready(src, q, par, n, b, disk, base, cur, nodeMap) && 0 < n < |nodeMap|
    requires |b| == RECORD && (ReadRecord(b).isDir || data == src.pool[q[n]].data)
    requires var r := ReadRecord(b); Put(cur, cur', ParentOf(nodeMap, r.parent), r.name, r.isDir, data, node)
    ensures LoadedTo(src, q, par, n + 1, cur', nodeMap[n := node])
  {
    EntryReads(src, q, par, n, b, disk, base);
    hide Tree, Queue, Syncable, SmallFiles, DefaultsIn, RecordBytes, RecordOf, ReadRecord, HasData, Put, Describes, BlockAt;
    ReadyFacts(src, q, par, n, b, disk, base, cur, nodeMap);
    hide Loaded, Restorable, EntryIs, Ready;
    var r, x := ReadRecord(b), src.pool[q[n]];
    PutAnyData(cur, cur', ParentOf(nodeMap, r.parent), x.name, x.isDir, data, x.data, node);
    PutLoads(src, q, par, n, cur, nodeMap, cur', node);
  }

  lemma ReadyFacts(src: Fs, q: seq<int>, par: seq<nat>, n: nat, b: seq<byte>, disk: seq<Sector>, base: nat,
                   cur: Fs, nodeMap: seq<int>)
    requires Ready(src, q, par, n, b, disk, base, cur, nodeMap) && 0 < n < |nodeMap|
    ensures Loaded(src, q, par, n, cur, nodeMap) && DefaultsIn(src) && n < |q| && Sized(src) && Used(src, q[n]) && par[n] < n
    ensures ParentOf(nodeMap, par[n]) == nodeMap[par[n]]
  {
    hide Tree, DefaultsIn, SmallFiles, RecordBytes, RecordOf;
    ParentFound(src, q, par, n, cur, nodeMap);
  }

  // A directory ignores the content.
  lemma PutAnyData(f: Fs, f': Fs, m: int, name: string, isDir: bool, data: seq<byte>, other: seq<byte>, node: int)
    requires Put(f, f', m, name, isDir, data, node) && (isDir || other == data)
    ensures Put(f, f', m, name, isDir, other, node)
  {
    hide Tree, FindChild;
  }

  // What a load finds in the i-th sector of a synced node table.
  lemma ImageEntry(disk: seq<Sector>, lba: nat, src: Fs, q: seq<int>, par: seq<nat>, i: nat, slot: nat)
    requires ImageIs(disk, lba, src, q, par) && Saved(src, q, par) && i < TABLE_SECTORS && slot < 4
    requires |disk| <= 0x1_0000_0000 && 4 * i + slot < |q|
    ensures Wrap32(lba + 1 + i) == lba + 1 + i < |disk|
    ensures var b := RecordAt(disk[lba + 1 + i], slot);
      IsValid(b) && EntryIs(src, q, par, 4 * i + slot, b, disk, lba + 1 + TABLE_SECTORS)
  {
    hide Tree, Saved, Storable, Enumerates, DataIs, TableIs, SuperBytes, RecordBytes, RecordAt, BlockAt;
    ImageRecord(disk, lba, src, q, par, i, slot);
    ImageBlock(disk, lba, src, q, par, 4 * i + slot);
    hide RecordOf, HasData;
    RecordReads(RecordOf(src, q, par, 4 * i + slot));
  }

  // The same for any slot; the slots past the last node are not looked at.
  ghost predicate SlotIs(src: Fs, q: seq<int>, par: seq<nat>, i: nat, s: Sector, disk: seq<Sector>, base: nat, slot: nat)
    requires slot < 4
  {
    4 * i + slot < |q| ==> IsValid(RecordAt(s, slot)) && EntryIs(src, q, par, 4 * i + slot, RecordAt(s, slot), disk, base)
  }

  ghost predicate SectorIs(src: Fs, q: seq<int>, par: seq<nat>, i: nat, s: Sector, disk: seq<Sector>, base: nat) {
    forall slot :: 0 <= slot < 4 ==> SlotIs(src, q, par, i, s, disk, base, slot)
  }

  lemma ImageHeader(disk: seq<Sector>, lba: nat, src: Fs, q: seq<int>, par: seq<nat>)
    requires ImageIs(disk, lba, src, q, par)
    ensures lba < |disk| && 0 < |q| <= MAX_NODES
    ensures Field(disk[lba], 0) == MAGIC && Field(disk[lba], 1) == VERSION && Field(disk[lba], 2) == |q|
    ensures Field(disk[lba], 3) == 1 && Field(disk[lba], 5) == 1 + TABLE_SECTORS
  {
    AllUsed(src, q, par);
    hide Tree, DataIs, TableIs, DataOf;
    SuperReads(|q|, |DataOf(src, q)|);
  }
}
