/**
 The breadth-first numbering of nodes (enumerate_nodes of fs/sfs_disk.c): what the queue holds
 while it is being filled, and that in the end it holds every node a path can reach.
 */
module DiskOrder {
  import opened FsTree
  import opened DiskFormat

  ghost predicate Distinct(q: seq<int>) {
    forall a, b :: 0 <= a < b < |q| ==> q[a] != q[b]
  }

  // The j-th queued node hangs, by a smaller index, under a directory queued before it.
  ghost predicate QueuedUnder(fs: Fs, q: seq<int>, par: seq<nat>, j: nat)
    requires Sized(fs) && |q| == |par| && 0 < j < |q| && Used(fs, q[j])
  {
    var a := par[j];
    a < j && Used(fs, q[a]) && fs.pool[q[a]].isDir && fs.pool[q[j]].parent == q[a]
  }

  ghost predicate Queue(fs: Fs, q: seq<int>, par: seq<nat>)
    requires Tree(fs)
  {
    && |q| == |par| && 1 <= |q| <= MAX_NODES && q[0] == 0 && par[0] == NULL_IDX && Distinct(q)
    && (forall j :: 0 <= j < |q| ==> Used(fs, q[j]))
    && (forall j :: 0 < j < |q| ==> QueuedUnder(fs, q, par, j))
  }

  // The result: every node that can be reached, once, parents first.
  ghost predicate Enumerates(fs: Fs, q: seq<int>, par: seq<nat>)
    requires Tree(fs)
  {
    Queue(fs, q, par) && forall i :: Used(fs, i) && OnDirs(fs, i) ==> i in q
  }

  ghost predicate AllQueued(ks: seq<int>, c: nat, q: seq<int>)
    requires c <= |ks|
  {
    forall x :: 0 <= x < c ==> ks[x] in q
  }

  // The children of the h-th queued node have been queued.
  ghost predicate Served(fs: Fs, q: seq<int>, h: nat)
    requires Sized(fs) && h < |q| && Used(fs, q[h])
  {
    fs.pool[q[h]].isDir ==> AllQueued(fs.kids[q[h]], |fs.kids[q[h]]|, q)
  }

  // With `head` nodes taken from the queue.
  ghost predicate Filling(fs: Fs, q: seq<int>, par: seq<nat>, head: nat)
    requires Tree(fs)
  {
    && Queue(fs, q, par) && head <= |q|
    && (|q| < MAX_NODES ==> forall h :: 0 <= h < head ==> Served(fs, q, h))
    && (forall j :: 0 < j < |q| ==> par[j] < head)
  }

  // While the children of the head-th node are queued, the first c of them being in already.
  ghost predicate Serving(fs: Fs, q: seq<int>, par: seq<nat>, head: nat, c: nat)
    requires Tree(fs)
  {
    && Queue(fs, q, par) && head < |q| && fs.pool[q[head]].isDir && c <= |fs.kids[q[head]]|
    && (forall h :: 0 <= h < head ==> Served(fs, q, h))
    && AllQueued(fs.kids[q[head]], c, q)
    && (forall j :: 0 < j < |q| ==> par[j] <= head)
    && (forall j :: 0 < j < |q| && par[j] == head ==> q[j] in fs.kids[q[head]][..c])
  }

  lemma ServingStep(fs: Fs, q: seq<int>, par: seq<nat>, head: nat, c: nat)
    requires Tree(fs) && Serving(fs, q, par, head, c) && |q| < MAX_NODES && c < |fs.kids[q[head]]|
    ensures Serving(fs, q + [fs.kids[q[head]][c]], par + [head], head, c + 1)
  {
    var ks := fs.kids[q[head]];
    var k := ks[c];
    var q', par' := q + [k], par + [head];
    NewToQueue(fs, q, par, head, c);
    QueueGrows(fs, q, par, k, head);
    hide Tree, Queue, Used, QueuedUnder, Served;
    forall h | 0 <= h < head ensures Served(fs, q', h) { ServedStays(fs, q, k, h); }
    forall j | 0 < j < |q'| ensures par'[j] <= head && (par'[j] == head ==> q'[j] in ks[..c + 1]) {
      if j < |q| {
        if par[j] == head { PrefixMember(ks, c, q[j]); }
      } else {
        assert ks[..c + 1][c] == k;
      }
    }
    forall x | 0 <= x < c + 1 ensures ks[x] in q' { if x == c { assert q'[|q|] == k; } }
  }

  lemma PrefixMember(ks: seq<int>, c: nat, k: int)
    requires c < |ks| && k in ks[..c]
    ensures k in ks[..c + 1]
  {
    var x :| 0 <= x < c && ks[..c][x] == k;
    assert ks[..c + 1][x] == k;
  }

  lemma ServedStays(fs: Fs, q: seq<int>, k: int, h: nat)
    requires Sized(fs) && h < |q| && Used(fs, q[h]) && Served(fs, q, h)
    ensures Served(fs, q + [k], h)
  {
  }

  lemma QueueGrows(fs: Fs, q: seq<int>, par: seq<nat>, k: int, a: nat)
    requires Tree(fs) && Queue(fs, q, par) && |q| < MAX_NODES && k !in q && Used(fs, k) && a < |q|
    requires Used(fs, q[a]) && fs.pool[q[a]].isDir && fs.pool[k].parent == q[a]
    ensures Queue(fs, q + [k], par + [a])
  {
    assert Sized(fs);
    hide Tree, Used, QueuedUnder, Distinct;
    var q', par' := q + [k], par + [a];
    StaysDistinct(q, k);
    forall j | 0 <= j < |q'| ensures Used(fs, q'[j]) && (j > 0 ==> QueuedUnder(fs, q', par', j)) {
      if j < |q| {
        assert Used(fs, q[j]) && (j > 0 ==> QueuedUnder(fs, q, par, j));
        if j > 0 { UnderStays(fs, q, par, k, a, j); }
      } else {
        NewUnder(fs, q, par, k, a);
      }
    }
  }

  lemma StaysDistinct(q: seq<int>, k: int)
    requires Distinct(q) && k !in q
    ensures Distinct(q + [k])
  {
  }

  lemma UnderStays(fs: Fs, q: seq<int>, par: seq<nat>, k: int, a: nat, j: nat)
    requires Sized(fs) && |q| == |par| && 0 < j < |q| && Used(fs, q[j]) && QueuedUnder(fs, q, par, j)
    ensures QueuedUnder(fs, q + [k], par + [a], j)
  {
  }

  lemma NewUnder(fs: Fs, q: seq<int>, par: seq<nat>, k: int, a: nat)
    requires Sized(fs) && |q| == |par| && Used(fs, k) && a < |q|
    requires Used(fs, q[a]) && fs.pool[q[a]].isDir && fs.pool[k].parent == q[a]
    ensures QueuedUnder(fs, q + [k], par + [a], |q|)
  {
  }

  lemma NewToQueue(fs: Fs, q: seq<int>, par: seq<nat>, head: nat, c: nat)
    requires Tree(fs) && Serving(fs, q, par, head, c) && c < |fs.kids[q[head]]|
    ensures var k := fs.kids[q[head]][c];
      k !in q && Used(fs, k) && fs.pool[k].parent == q[head]
  {
    var d := q[head];
    var ks := fs.kids[d];
    var k := ks[c];
    assert ChildrenOf(fs, d) && k in ks;
    hide Tree;
    forall j | 0 <= j < |q| ensures q[j] != k {
      if j > 0 {
        assert QueuedUnder(fs, q, par, j);
        if par[j] == head { assert q[j] in ks[..c]; }
      }
    }
  }

  lemma ServingDone(fs: Fs, q: seq<int>, par: seq<nat>, head: nat, c: nat)
    requires Tree(fs) && Serving(fs, q, par, head, c) && (c == |fs.kids[q[head]]| || |q| == MAX_NODES)
    ensures Filling(fs, q, par, head + 1)
  {
    hide Tree, ChildrenOf, Queue;
  }

  // ---- Pigeonhole ----

  ghost function Below(n: nat): (s: set<int>)
    ensures |s| == n && forall x :: x in s <==> 0 <= x < n
  {
    if n == 0 then {} else Below(n - 1) + {n - 1}
  }

  lemma DistinctBound(q: seq<int>, n: nat)
    requires Distinct(q) && forall j :: 0 <= j < |q| ==> 0 <= q[j] < n
    ensures |q| <= n
  {
    DistinctSet(q);
    SubsetSize(Elements(q), Below(n));
  }

  ghost function Elements(q: seq<int>): set<int> {
    set x | x in q
  }

  lemma {:induction false} DistinctSet(q: seq<int>)
    requires Distinct(q)
    ensures |Elements(q)| == |q|
  {
    if q != [] {
      var p, x := q[..|q| - 1], q[|q| - 1];
      assert q == p + [x];
      DistinctSet(p);
      assert Elements(q) == Elements(p) + {x};
    }
  }

  lemma {:induction false} SubsetSize<T>(a: set<T>, b: set<T>)
    requires a <= b
    ensures |a| <= |b|
  {
    if a != {} {
      var x :| x in a;
      SubsetSize(a - {x}, b - {x});
    }
  }

  lemma FullQueue(q: seq<int>, i: int)
    requires Distinct(q) && |q| == MAX_NODES && forall j :: 0 <= j < |q| ==> 0 <= q[j] < MAX_NODES
    requires 0 <= i < MAX_NODES
    ensures i in q
  {
    if i !in q { DistinctBound(q + [i], MAX_NODES); }
  }

  // ---- Completeness ----

  lemma {:induction false} Reached(fs: Fs, q: seq<int>, par: seq<nat>, i: int)
    requires Tree(fs) && Filling(fs, q, par, |q|) && |q| < MAX_NODES && Used(fs, i) && OnDirs(fs, i)
    ensures i in q
    decreases fs.depth[i]
  {
    if i != 0 {
      var a := fs.pool[i].parent;
      assert i in fs.kids[a] && ChildrenOf(fs, a);
      Reached(fs, q, par, a);
      hide Tree, Queue;
      var h :| 0 <= h < |q| && q[h] == a;
      assert Served(fs, q, h);
      var x :| 0 <= x < |fs.kids[a]| && fs.kids[a][x] == i;
    }
  }

  lemma FilledEnumerates(fs: Fs, q: seq<int>, par: seq<nat>, head: nat)
    requires Tree(fs) && Filling(fs, q, par, head) && (head == |q| || |q| == MAX_NODES)
    ensures Enumerates(fs, q, par)
  {
    forall i | Used(fs, i) && OnDirs(fs, i) ensures i in q {
      if |q| == MAX_NODES { FullQueue(q, i); } else { Reached(fs, q, par, i); }
    }
  }

  // Only nodes that can be reached are queued.
  lemma {:induction false} QueuedOnDirs(fs: Fs, q: seq<int>, par: seq<nat>, j: nat)
    requires Tree(fs) && Queue(fs, q, par) && j < |q|
    ensures OnDirs(fs, q[j])
  {
    if j > 0 {
      assert QueuedUnder(fs, q, par, j);
      QueuedOnDirs(fs, q, par, par[j]);
    }
  }
}
