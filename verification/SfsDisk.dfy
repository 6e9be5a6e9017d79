/**
 Writing the file system to a disk and reading it back (sfs_sync_to_disk, sfs_load_from_disk
 of fs/sfs_disk.c).  The drive is an array of sectors; access beyond its end is the only error.
 */
module SfsDisk {
  import opened FsTree
  import opened ScorpionFs
  import opened DiskFormat
  import opened DiskOrder
  import opened DiskImage
  import opened DiskLoad

  class Store {
    const fs: FileSystem
    const sectors: array<Sector>
    const bfsQueue: array<int>
    const bfsParent: array<nat>

    constructor (fs: FileSystem, sectors: array<Sector>)
      ensures this.fs == fs && this.sectors == sectors && fresh(bfsQueue) && fresh(bfsParent)
      ensures bfsQueue.Length == bfsParent.Length == MAX_NODES
    {
      this.fs, this.sectors := fs, sectors;
      bfsQueue, bfsParent := new int[MAX_NODES], new nat[MAX_NODES];
    }

    ghost predicate Valid()
      reads fs, fs.pool, fs.used
    {
      bfsQueue.Length == bfsParent.Length == MAX_NODES && fs.Valid()
    }

    // ---- Enumerating ----

    method Enumerate() returns (count: nat)
      requires Valid()
      modifies bfsQueue, bfsParent
      ensures count <= MAX_NODES && Enumerates(fs.State(), bfsQueue[..count], bfsParent[..count])
    {
      ghost var t := fs.State();
      SizedTree(t);
      var head, tail: nat := 0, 0;
      count := 0;
      bfsQueue[tail], bfsParent[tail] := 0, NULL_IDX;
      tail, count := tail + 1, count + 1;
      assert bfsQueue[..1] == [0] && Queue(t, bfsQueue[..1], bfsParent[..1]);
      hide Tree, Queue, Serving, Enumerates;
      while head < tail && count < MAX_NODES
        invariant head <= tail == count <= MAX_NODES && fs.State() == t
        invariant Filling(t, bfsQueue[..tail], bfsParent[..tail], head)
        decreases MAX_NODES - head
      {
        var cur := bfsQueue[head];
        ghost var q, par := bfsQueue[..tail], bfsParent[..tail];
        HeadUsed(t, q, par, head);
        if fs.pool[cur].isDir {
          StartServing(t, q, par, head);
          tail := QueueChildren(fs.pool[..], cur, head, tail, t);
          count := tail;
        }
        head := head + 1;
      }
      FilledEnumerates(t, bfsQueue[..count], bfsParent[..count], head);
    }

    method QueueChildren(nodes: seq<Node>, cur: int, curIdx: nat, from: nat, ghost t: Fs) returns (tail: nat)
      requires bfsQueue.Length == bfsParent.Length == MAX_NODES && Tree(t) && nodes == t.pool && Sized(t)
      requires curIdx < from <= MAX_NODES && bfsQueue[curIdx] == cur && Used(t, cur)
      requires Serving(t, bfsQueue[..from], bfsParent[..from], curIdx, 0)
      modifies bfsQueue, bfsParent
      ensures from <= tail <= MAX_NODES && Filling(t, bfsQueue[..tail], bfsParent[..tail], curIdx + 1)
    {
      hide Tree, Serving, Filling, ChildrenOf;
      KidsInRange(t, cur);
      ghost var ks, c := t.kids[cur], 0;
      tail := from;
      var child := nodes[cur].child;
      while child != NULL && tail < MAX_NODES
        invariant from <= tail <= MAX_NODES && c <= |ks| && bfsQueue[curIdx] == cur
        invariant child == if c < |ks| then ks[c] else NULL
        invariant Serving(t, bfsQueue[..tail], bfsParent[..tail], curIdx, c)
        decreases MAX_NODES - tail
      {
        assert NextIs(t.pool, ks, c);
        Push(child, curIdx, tail, t, c);
        tail := tail + 1;
        child := nodes[child].next;
        c := c + 1;
      }
      ServingDone(t, bfsQueue[..tail], bfsParent[..tail], curIdx, c);
    }

    method Push(child: int, curIdx: nat, tail: nat, ghost t: Fs, ghost c: nat)
      requires bfsQueue.Length == bfsParent.Length == MAX_NODES && Tree(t) && Sized(t) && curIdx < tail < MAX_NODES
      requires var cur := bfsQueue[curIdx]; Used(t, cur) && c < |t.kids[cur]| && child == t.kids[cur][c]
      requires Serving(t, bfsQueue[..tail], bfsParent[..tail], curIdx, c)
      modifies bfsQueue, bfsParent
      ensures Serving(t, bfsQueue[..tail + 1], bfsParent[..tail + 1], curIdx, c + 1)
      ensures bfsQueue[curIdx] == old(bfsQueue[curIdx])
    {
      hide Tree, Serving;
      ghost var q, par := bfsQueue[..tail], bfsParent[..tail];
      ServingStep(t, q, par, curIdx, c);
      bfsQueue[tail] := child;
      bfsParent[tail] := curIdx;
      assert bfsQueue[..tail + 1] == q + [child] && bfsParent[..tail + 1] == par + [curIdx];
    }

    // ---- Writing ----

    method WriteSector(lba: nat, s: Sector) returns (ok: bool)
      modifies sectors
      ensures ok == (lba < sectors.Length)
      ensures sectors[..] == if ok then old(sectors[..])[lba := s] else old(sectors[..])
    {
      ok := lba < sectors.Length;
      if ok { sectors[lba] := s; }
    }

    // The record of the n-th node; `block` is the running block number.
    static method MakeRecord(nodes: seq<Node>, q: seq<int>, par: seq<nat>, n: nat, block: nat, ghost t: Fs)
      returns (r: Record, next: nat)
      requires Syncable(t, q, par) && nodes == t.pool && n < |q| && BlockIs(t, q, n, block)
      ensures r == RecordOf(t, q, par, n) && BlockIs(t, q, n + 1, next)
    {
      hide Tree, Syncable, DataOf, RecordBytes, BlocksUpTo, RecordOf;
      RecordStep(t, q, par, n);
      var x := nodes[q[n]];
      var hasData := !x.isDir && x.data != [];
      r := Record(x.name, x.isDir, par[n], |x.data|, if hasData then block else NULL_IDX);
      next := if hasData then block + 1 else block;
    }

    // One sector of the node table.
    static method FillSector(nodes: seq<Node>, q: seq<int>, par: seq<nat>, first: nat, block: nat, buf: array<byte>, ghost t: Fs)
      returns (next: nat)
      requires Syncable(t, q, par) && nodes == t.pool && BlockIs(t, q, first, block) && buf.Length == SECTOR
      modifies buf
      ensures buf[..] == Slots(t, q, par, first, 4) && BlockIs(t, q, first + 4, next)
    {
      hide Tree, Syncable, BlockIs, Slots, SlotBytes, Zeros, RecordBytes, RecordOf;
      SlotsStart(t, q, par, first);
      next := block;
      Fill(buf, 0, Zeros(SECTOR));
      var slot := 0;
      while slot < 4
        invariant 0 <= slot <= 4 && BlockIs(t, q, first + slot, next)
        invariant buf[..] == Slots(t, q, par, first, slot) + Zeros(SECTOR - RECORD * slot)
      {
        SlotsGrow(t, q, par, first, slot, buf[..]);
        if first + slot < |q| {
          var r;
          r, next := MakeRecord(nodes, q, par, first + slot, next, t);
          Fill(buf, RECORD * slot, RecordBytes(r));
        } else {
          BlockStays(t, q, first + slot, next);
        }
        slot := slot + 1;
      }
    }

    method SyncTable(nodes: seq<Node>, q: seq<int>, par: seq<nat>, lba: nat, ghost t: Fs) returns (ok: bool)
      requires Syncable(t, q, par) && nodes == t.pool
      modifies sectors
      ensures ok ==> TableIs(sectors[..], lba + 1, t, q, par, TABLE_SECTORS)
      ensures lba + 1 + TABLE_SECTORS <= sectors.Length ==> ok
      ensures OnlyWithin(old(sectors[..]), sectors[..], lba + 1, lba + 1 + TABLE_SECTORS)
    {
      ghost var before := sectors[..];
      assert OnlyWithin(before, before, lba + 1, lba + 1 + TABLE_SECTORS);
      TableStarts(sectors[..], lba + 1, t, q, par);
      hide Tree, Syncable, Slots, BlockIs, TableIs, OnlyWithin;
      var buf := new byte[SECTOR];
      var block := 0;
      var i := 0;
      while i < TABLE_SECTORS
        invariant 0 <= i <= TABLE_SECTORS && fresh(buf) && BlockIs(t, q, 4 * i, block)
        invariant TableIs(sectors[..], lba + 1, t, q, par, i)
        invariant OnlyWithin(before, sectors[..], lba + 1, lba + 1 + TABLE_SECTORS)
      {
        ok, block := SyncTableSector(nodes, q, par, lba, i, block, buf, t, before);
        if !ok { return; }
        i := i + 1;
      }
      ok := true;
    }

    method SyncTableSector(nodes: seq<Node>, q: seq<int>, par: seq<nat>, lba: nat, i: nat, block: nat, buf: array<byte>,
                           ghost t: Fs, ghost before: seq<Sector>)
      returns (ok: bool, next: nat)
      requires Syncable(t, q, par) && nodes == t.pool && BlockIs(t, q, 4 * i, block) && buf.Length == SECTOR
      requires i < TABLE_SECTORS && TableIs(sectors[..], lba + 1, t, q, par, i)
      requires OnlyWithin(before, sectors[..], lba + 1, lba + 1 + TABLE_SECTORS)
      modifies sectors, buf
      ensures ok == (lba + 1 + i < sectors.Length)
      ensures ok ==> TableIs(sectors[..], lba + 1, t, q, par, i + 1) && BlockIs(t, q, 4 * i + 4, next)
      ensures OnlyWithin(before, sectors[..], lba + 1, lba + 1 + TABLE_SECTORS)
    {
      hide Tree, Syncable, Slots, BlockIs, TableIs, OnlyWithin;
      next := FillSector(nodes, q, par, 4 * i, block, buf, t);
      ok := PutTable(lba, i, buf[..], t, q, par, before);
    }

    method PutTable(lba: nat, i: nat, s: Sector, ghost t: Fs, ghost q: seq<int>, ghost par: seq<nat>, ghost before: seq<Sector>)
      returns (ok: bool)
      requires Syncable(t, q, par) && i < TABLE_SECTORS && s == Slots(t, q, par, 4 * i, 4)
      requires TableIs(sectors[..], lba + 1, t, q, par, i)
      requires OnlyWithin(before, sectors[..], lba + 1, lba + 1 + TABLE_SECTORS)
      modifies sectors
      ensures ok == (lba + 1 + i < sectors.Length)
      ensures ok ==> TableIs(sectors[..], lba + 1, t, q, par, i + 1)
      ensures OnlyWithin(before, sectors[..], lba + 1, lba + 1 + TABLE_SECTORS)
    {
      hide Tree, Syncable, Slots, TableIs, OnlyWithin;
      TableGrows(sectors[..], lba + 1, t, q, par, i);
      StillWithin(before, sectors[..], lba + 1, lba + 1 + TABLE_SECTORS, lba + 1 + i, s);
      ok := WriteSector(lba + 1 + i, s);
    }

    // Returns the number of blocks written, or -1.
    method SyncData(nodes: seq<Node>, q: seq<int>, lba: nat, ghost t: Fs) returns (db: int)
      requires Sized(t) && Within(q) && nodes == t.pool && |q| <= MAX_NODES
      modifies sectors
      ensures db == -1 || (db == |DataOf(t, q)| && DataIs(sectors[..], lba, DataOf(t, q)))
      ensures lba + 8 * MAX_NODES <= sectors.Length ==> db != -1
      ensures OnlyWithin(old(sectors[..]), sectors[..], lba, lba + 8 * MAX_NODES)
    {
      ghost var before := sectors[..];
      assert q[..0] == [] && q[..|q|] == q;
      assert DataIs(sectors[..], lba, DataOf(t, [])) && OnlyWithin(before, before, lba, lba + 8 * MAX_NODES);
      db := 0;
      var i := 0;
      hide DataOf, DataIs, OnlyWithin;
      while i < |q|
        invariant 0 <= i <= |q|
        invariant db == |DataOf(t, q[..i])| <= i && DataIs(sectors[..], lba, DataOf(t, q[..i]))
        invariant OnlyWithin(before, sectors[..], lba, lba + 8 * MAX_NODES)
      {
        var x := nodes[q[i]];
        DataOfNext(t, q, i);
        ghost var was := sectors[..];
        if !x.isDir && x.data != [] {
          var ok := WriteBlock(lba, db, x.data, DataOf(t, q[..i]));
          WithinWider(before, was, sectors[..], lba, lba + 8 * MAX_NODES, lba + 8 * db, lba + 8 * db + 8);
          if !ok { return -1; }
          db := db + 1;
        }
        i := i + 1;
      }
    }

    method WriteBlock(lba: nat, db: nat, data: seq<byte>, ghost blocks: seq<seq<byte>>) returns (ok: bool)
      requires DataIs(sectors[..], lba, blocks) && db == |blocks|
      modifies sectors
      ensures ok ==> DataIs(sectors[..], lba, blocks + [data])
      ensures lba + 8 * db + 8 <= sectors.Length ==> ok
      ensures OnlyWithin(old(sectors[..]), sectors[..], lba + 8 * db, lba + 8 * db + 8)
    {
      ghost var before := sectors[..];
      var block := new byte[BLOCK](i requires 0 <= i < BLOCK => Padded(data)[i]);
      assert block[..] == Padded(data);
      hide Padded, DataIs;
      var s := 0;
      while s < 8
        invariant 0 <= s <= 8 && block[..] == Padded(data) && fresh(block) && |before| == sectors.Length
        invariant s > 0 ==> lba + 8 * db + s <= sectors.Length
        invariant forall x :: lba + 8 * db <= x < lba + 8 * db + s ==> sectors[x] == DataSector(data, x - lba - 8 * db)
        invariant OnlyWithin(before, sectors[..], lba + 8 * db, lba + 8 * db + 8)
      {
        ok := WriteSector(lba + 8 * db + s, block[SECTOR * s..SECTOR * s + SECTOR]);
        if !ok { return; }
        s := s + 1;
      }
      ok := true;
      BlockAdded(before, sectors[..], lba, blocks, data);
    }

    method Sync(lba: nat) returns (r: int, ghost count: nat)
      requires Valid() && Storable(fs.State())
      modifies sectors, bfsQueue, bfsParent
      ensures r == 0 || r == -1
      ensures count <= MAX_NODES && Enumerates(fs.State(), bfsQueue[..count], bfsParent[..count])
      ensures r == 0 ==> ImageIs(sectors[..], lba, fs.State(), bfsQueue[..count], bfsParent[..count])
      ensures lba + IMAGE_SECTORS <= sectors.Length ==> r == 0
      ensures OnlyWithin(old(sectors[..]), sectors[..], lba, lba + IMAGE_SECTORS)
    {
      hide Tree, Storable, Queue, OnlyWithin, ImageIs;
      var n := Enumerate();
      r := WriteImage(fs.pool[..], bfsQueue[..n], bfsParent[..n], lba, fs.State());
      count := n;
    }

    // The three passes of a sync over the nodes in the queue.
    method WriteImage(nodes: seq<Node>, q: seq<int>, par: seq<nat>, lba: nat, ghost t: Fs) returns (r: int)
      requires Syncable(t, q, par) && nodes == t.pool
      modifies sectors
      ensures r == 0 || r == -1
      ensures r == 0 ==> ImageIs(sectors[..], lba, t, q, par)
      ensures lba + IMAGE_SECTORS <= sectors.Length ==> r == 0
      ensures OnlyWithin(old(sectors[..]), sectors[..], lba, lba + IMAGE_SECTORS)
    {
      hide Tree, Syncable, DataOf, DataIs, TableIs, SuperBytes, OnlyWithin, ImageIs;
      ghost var before := sectors[..];
      SyncableSized(t, q, par);
      var ok := SyncTable(nodes, q, par, lba, t);
      ghost var tabled := sectors[..];
      TableOnly(before, tabled, lba);
      if !ok { return -1; }
      var db := SyncData(nodes, q, lba + 1 + TABLE_SECTORS, t);
      ghost var filled := sectors[..];
      WithinWider(before, tabled, filled, lba, lba + IMAGE_SECTORS, lba + 1 + TABLE_SECTORS, lba + IMAGE_SECTORS);
      if db == -1 { return -1; }
      ok := WriteSector(lba, SuperBytes(|q|, db));
      if !ok { return -1; }
      StagesKept(before, tabled, filled, sectors[..], lba, t, q, par);
      return 0;
    }

    // ---- Reading ----

    method ReadSector(lba: nat) returns (ok: bool, s: Sector)
      ensures ok == (lba < sectors.Length)
      ensures ok ==> s == sectors[lba]
    {
      ok := lba < sectors.Length;
      s := if ok then sectors[lba] else Zeros(SECTOR);
    }

    // One data block, unless a part of it lies past the disk's end; `data` is the content that the
    // disk may hold there.
    method ReadBlock(base: nat, block: nat, ghost data: seq<byte>) returns (ok: bool, buf: array<byte>)
      ensures fresh(buf) && buf.Length == BLOCK
      ensures ok <==> OnDisk(sectors[..], base, block, 8)
      ensures ok ==> Copied(buf[..], sectors[..], base, block, 8)
      ensures BlockAt(sectors[..], base, block, data) ==> ok && buf[..] == Padded(data)
    {
      buf := new byte[BLOCK](_ => 0);
      hide Padded, Wrap32, Copied, BlockAt;
      var s := 0;
      NoneCopied(buf[..], sectors[..], base, block);
      while s < 8
        invariant 0 <= s <= 8 && fresh(buf) && Copied(buf[..], sectors[..], base, block, s)
        decreases 8 - s
      {
        var sector;
        ok, sector := ReadSector(Wrap32(base + block * 8 + s));
        if !ok {
          assert BlockSector(base, block, s) >= sectors.Length;
          if BlockAt(sectors[..], base, block, data) { CopiedBlock(sectors[..], base, block, data); }
          return;
        }
        ghost var was := buf[..];
        Fill(buf, SECTOR * s, sector);
        NextCopied(was, buf[..], sectors[..], base, block, s);
        s := s + 1;
      }
      ok := true;
      CopiedAll(buf[..], sectors[..], base, block);
      if BlockAt(sectors[..], base, block, data) { CopiedIs(buf[..], sectors[..], base, block, data); }
    }

    // The content of the file a record describes; empty if it cannot be read.
    method ReadContent(base: nat, r: Record, ghost data: seq<byte>) returns (content: seq<byte>)
      requires r.size <= BLOCK || r.block == NULL_IDX
      ensures Describes(r, data, sectors[..], base) ==> content == data
      ensures if r.block != NULL_IDX && OnDisk(sectors[..], base, r.block, 8) then |content| == r.size else content == []
    {
      content := [];
      if r.block != NULL_IDX && r.size > 0 {
        var ok, buf := ReadBlock(base, r.block, data);
        if ok { content := buf[..r.size]; }
        if Describes(r, data, sectors[..], base) { assert Padded(data)[..|data|] == data; }
      }
    }

    // Find or make the entry a record stands for.
    method PutEntry(parent: int, name: string, isDir: bool, data: seq<byte>, granted: bool) returns (node: int)
      requires Valid() && Used(fs.State(), parent) && |name| < NAME_MAX
      modifies fs`kids, fs`depth, fs.pool, fs.used
      ensures Valid() && DiskLoad.Put(old(fs.State()), fs.State(), parent, name, isDir, if granted then data else [], node)
    {
      ghost var f := fs.State();
      SizedTree(f);
      hide Tree, FindChild, CanAdd, Added, Rewritten;
      if isDir {
        node := fs.FindChildByName(parent, name);
        if node == NULL || !fs.pool[node].isDir { node := fs.Mkdir(parent, name); }
      } else {
        node := fs.WriteFile(parent, name, data, granted);
      }
    }

    // The node of one record below the root; `data` is the content given to a file.
    method LoadNode(base: nat, b: seq<byte>, nodeMap: seq<int>, granted: bool, ghost want: seq<byte>)
      returns (node: int, ghost data: seq<byte>)
      requires Valid() && |b| == RECORD && IsValid(b) && RecordOk(b)
      requires Sized(fs.State()) && Used(fs.State(), 0) && MapValid(fs.State(), nodeMap)
      modifies fs`kids, fs`depth, fs.pool, fs.used
      ensures var r := ReadRecord(b);
        && Valid() && Put(old(fs.State()), fs.State(), ParentOf(nodeMap, r.parent), r.name, r.isDir, if granted then data else [], node)
        && (!r.isDir && Describes(r, want, old(sectors[..]), base) ==> data == want)
    {
      hide Tree, Put, Describes, CName;
      var r := ReadRecord(b);
      var parent := NULL;
      if r.parent < |nodeMap| % 0x1_0000 { parent := nodeMap[r.parent]; }
      if parent == NULL { parent := 0; }
      var content := [];
      if !r.isDir { content := ReadContent(base, r, want); }
      node := PutEntry(parent, r.name, r.isDir, content, granted);
      data := content;
    }

    // One record of the node table: its node goes into the map.
    method LoadEntry(base: nat, n: nat, b: seq<byte>, nodeMap: seq<int>, granted: bool,
                     ghost src: Fs, ghost q: seq<int>, ghost par: seq<nat>)
      returns (nodeMap': seq<int>)
      requires Valid() && |b| == RECORD && IsValid(b) && RecordOk(b) && n < |nodeMap|
      requires Sized(fs.State()) && MapValid(fs.State(), nodeMap) && DefaultsIn(fs.State())
      modifies fs`kids, fs`depth, fs.pool, fs.used
      ensures Valid() && Sized(fs.State()) && |nodeMap'| == |nodeMap| && MapValid(fs.State(), nodeMap') && DefaultsIn(fs.State())
      ensures granted && Ready(src, q, par, n, b, old(sectors[..]), base, old(fs.State()), nodeMap) ==>
        LoadedTo(src, q, par, n + 1, fs.State(), nodeMap')
    {
      ghost var f, disk := fs.State(), sectors[..];
      ghost var good := granted && Ready(src, q, par, n, b, disk, base, f, nodeMap);
      SizedTree(f);
      if n == 0 {
        if good { EntryRoot(src, q, par, b, disk, base, f, nodeMap); }
        return nodeMap[0 := 0];
      }
      ghost var want := if good then src.pool[q[n]].data else [];
      if good { EntryReads(src, q, par, n, b, disk, base); }
      hide Tree, Ready, LoadedTo, Put, ReadRecord, RecordOk, Describes, MapValid, DefaultsIn;
      var node;
      ghost var data;
      node, data := LoadNode(base, b, nodeMap, granted, want);
      ghost var r := ReadRecord(b);
      PutKeepsMap(f, fs.State(), ParentOf(nodeMap, r.parent), r.name, r.isDir, if granted then data else [], node, nodeMap, n);
      PutKeepsDefaults(f, fs.State(), ParentOf(nodeMap, r.parent), r.name, r.isDir, if granted then data else [], node);
      if good { EntryLoads(src, q, par, n, b, disk, base, f, nodeMap, fs.State(), data, node); }
      return nodeMap[n := node];
    }

    // Between two records.
    ghost predicate Loading(nodeMap: seq<int>, size: nat)
      reads fs, fs.pool, fs.used
    {
      Valid() && Sized(fs.State()) && MapValid(fs.State(), nodeMap) && |nodeMap| == size && DefaultsIn(fs.State())
    }

    // The record in one slot, if there is one.
    method LoadSlot(base: nat, n: nat, b: seq<byte>, nodeMap: seq<int>, granted: bool,
                    ghost good: bool, ghost src: Fs, ghost q: seq<int>, ghost par: seq<nat>)
      returns (nodeMap': seq<int>)
      requires |b| == RECORD && RecordOk(b) && n < |nodeMap| && Loading(nodeMap, |nodeMap|)
      requires good ==> granted && |nodeMap| == |q| && IsValid(b) && EntryIs(src, q, par, n, b, sectors[..], base)
      requires good ==> Restorable(src, q, par)
      requires good ==> LoadedTo(src, q, par, n, fs.State(), nodeMap)
      modifies fs`kids, fs`depth, fs.pool, fs.used
      ensures Loading(nodeMap', |nodeMap|)
      ensures good ==> LoadedTo(src, q, par, n + 1, fs.State(), nodeMap')
    {
      hide Tree, LoadedTo, EntryIs, RecordOk, IsValid, Restorable, DefaultsIn;
      if !IsValid(b) {
        nodeMap' := nodeMap[n := NULL];
      } else {
        nodeMap' := LoadEntry(base, n, b, nodeMap, granted, src, q, par);
      }
    }

    // The records of one sector, up to the last one of the image.
    method LoadSector(base: nat, s: Sector, i: nat, count: int, nodeMap: seq<int>, room: nat -> bool,
                      ghost good: bool, ghost src: Fs, ghost q: seq<int>, ghost par: seq<nat>)
      returns (nodeMap': seq<int>, done: bool)
      requires Loading(nodeMap, if count > 0 then count else 0)
      requires forall slot :: 0 <= slot < 4 && 4 * i + slot < count ==> RecordOk(RecordAt(s, slot))
      requires good ==> count == |q| && 4 * i <= count && LoadedTo(src, q, par, 4 * i, fs.State(), nodeMap)
      requires good ==> AlwaysRoom(room) && Restorable(src, q, par) && SectorIs(src, q, par, i, s, sectors[..], base)
      modifies fs`kids, fs`depth, fs.pool, fs.used
      ensures Loading(nodeMap', |nodeMap|) && done == (4 * i + 4 > count)
      ensures good ==> LoadedTo(src, q, par, if done then count else 4 * i + 4, fs.State(), nodeMap')
    {
      hide Tree, Loading, LoadedTo, EntryIs, RecordOk, RecordAt, IsValid, Restorable;
      ghost var disk, size := sectors[..], |nodeMap|;
      LoadingSize(nodeMap, if count > 0 then count else 0);
      nodeMap' := nodeMap;
      var slot := 0;
      while slot < 4
        invariant 0 <= slot <= 4 && sectors[..] == disk && Loading(nodeMap', size)
        invariant good ==> LoadedTo(src, q, par, 4 * i + slot, fs.State(), nodeMap')
        invariant good || slot > 0 ==> 4 * i + slot <= count
      {
        var n := 4 * i + slot;
        LoadingSize(nodeMap', size);
        if n >= count { return nodeMap', true; }
        assert good ==> SlotIs(src, q, par, i, s, disk, base, slot) && room(n);
        nodeMap' := LoadSlot(base, n, RecordAt(s, slot), nodeMap', room(n), good, src, q, par);
        slot := slot + 1;
      }
      LoadingSize(nodeMap', size);
      done := false;
    }

    lemma LoadingValid(nodeMap: seq<int>, size: nat)
      requires Loading(nodeMap, size)
      ensures Valid() && DefaultsIn(fs.State())
    {
      hide Tree, MapValid, DefaultsIn;
    }

    lemma LoadingSize(nodeMap: seq<int>, size: nat)
      requires Loading(nodeMap, size)
      ensures |nodeMap| == size
    {
    }

    method LoadTable(lba: nat, tableLba: nat, dataLba: nat, count: int, nodeMap: seq<int>, room: nat -> bool,
                     ghost good: bool, ghost src: Fs, ghost q: seq<int>, ghost par: seq<nat>)
      returns (r: int, nodeMap': seq<int>)
      requires Loading(nodeMap, if count > 0 then count else 0)
      requires forall i :: 0 <= i < TABLE_SECTORS ==> TableReadable(sectors[..], lba, tableLba, i, count)
      requires good ==> Mounting(sectors[..], lba, tableLba, dataLba, count, room, src, q, par)
      requires good ==> LoadedTo(src, q, par, 0, fs.State(), nodeMap)
      modifies fs`kids, fs`depth, fs.pool, fs.used
      ensures Valid() && DefaultsIn(fs.State())
      ensures good ==> r == 0 && LoadedTo(src, q, par, |q|, fs.State(), nodeMap')
    {
      hide Tree, Loading, LoadedTo, EntryIs, RecordOk, RecordAt, Mounting, Restorable, SectorIs, AlwaysRoom, Wrap32, TableReadable;
      ghost var disk, size := sectors[..], |nodeMap|;
      LoadingSize(nodeMap, if count > 0 then count else 0);
      if good { MountingSize(disk, lba, tableLba, dataLba, count, room, src, q, par); }
      nodeMap' := nodeMap;
      var i := 0;
      while i < TABLE_SECTORS
        invariant 0 <= i <= TABLE_SECTORS && sectors[..] == disk && Loading(nodeMap', size)
        invariant good ==> 4 * i <= |q| && LoadedTo(src, q, par, 4 * i, fs.State(), nodeMap')
      {
        if good { MountingSector(disk, lba, tableLba, dataLba, count, room, src, q, par, i); }
        var ok, s := ReadSector(Wrap32(lba + tableLba + i));
        if !ok {
          LoadingValid(nodeMap', size);
          return -1, nodeMap';
        }
        TableReadableAt(disk, lba, tableLba, i, count);
        LoadingSize(nodeMap', size);
        var done;
        nodeMap', done := LoadSector(lba + dataLba, s, i, count, nodeMap', room, good, src, q, par);
        if done {
          LoadingValid(nodeMap', size);
          return 0, nodeMap';
        }
        i := i + 1;
      }
      LoadingValid(nodeMap', size);
      r := 0;
    }

    // sfs_load_from_disk.  mapOk, bufOk and room(n) say whether kmalloc has room for the node
    // map, the block buffer and the n-th file.
    method Load(lba: nat, mapOk: bool, bufOk: bool, room: nat -> bool, ghost src: Fs, ghost q: seq<int>, ghost par: seq<nat>)
      returns (r: int)
      requires Valid() && sectors.Length <= 0x1_0000_0000 && Readable(sectors[..], lba)
      modifies fs`kids, fs`depth, fs.pool, fs.used
      ensures Valid()
      ensures !(Mountable(sectors[..], lba) && mapOk && bufOk) ==>
        fs.State() == old(fs.State()) && r == (if EmptyImage(sectors[..], lba) then 0 else -1)
      ensures Mountable(sectors[..], lba) && mapOk && bufOk ==> DefaultsIn(fs.State())
      ensures ImageIs(sectors[..], lba, src, q, par) && Restorable(src, q, par) && mapOk && bufOk && AlwaysRoom(room) ==>
        r == 0 && forall p :: Get(fs.State(), p) == Get(src, p)
    {
      ghost var disk := sectors[..];
      ghost var good := ImageIs(disk, lba, src, q, par) && Restorable(src, q, par) && AlwaysRoom(room);
      hide Tree, TableReadable, Field, DefaultsIn;
      if good { ImageHeader(disk, lba, src, q, par); }
      hide ImageIs, Restorable;
      var ok, sb := ReadSector(lba);
      if !ok || Field(sb, 0) != MAGIC || Field(sb, 1) != VERSION { return -1; }
      var count := ToInt32(Field(sb, 2));
      if count == 0 { return 0; }
      if !mapOk || !bufOk { return -1; }
      r := Rebuild(lba, Field(sb, 3), Field(sb, 5), count, room, good, src, q, par);
    }

    // Writing the file system out and mounting it again shows the same paths with the same content
    // exactly when the entries Init makes were all there: a missing one comes back.
    method SyncAndMount(lba: nat, room: nat -> bool) returns (r: int)
      requires Valid() && Storable(fs.State()) && SmallFiles(fs.State())
      requires lba + IMAGE_SECTORS <= sectors.Length <= 0x1_0000_0000 && AlwaysRoom(room)
      modifies sectors, bfsQueue, bfsParent, fs`kids, fs`depth, fs.pool, fs.used
      ensures Valid()
      ensures DefaultsIn(fs.State())
      ensures old(DefaultsIn(fs.State())) ==> r == 0
      ensures old(DefaultsIn(fs.State())) <==> forall p :: Get(fs.State(), p) == old(Get(fs.State(), p))
    {
      ghost var src := fs.State();
      hide Tree, Storable, SmallFiles, DefaultsIn, Queue, ImageIs, OnlyWithin, Readable, Get, Mountable;
      ghost var count;
      r, count := Sync(lba);
      ghost var q, par := bfsQueue[..count], bfsParent[..count];
      assert Saved(src, q, par);
      ImageReadable(sectors[..], lba, src, q, par);
      hide Saved, Enumerates;
      r := Load(lba, true, true, room, src, q, par);
      if forall p :: Get(fs.State(), p) == Get(src, p) { SameDefaults(fs.State(), src); }
    }

    // Start over with the default entries and restore the records.
    method Rebuild(lba: nat, tableLba: nat, dataLba: nat, count: int, room: nat -> bool,
                   ghost good: bool, ghost src: Fs, ghost q: seq<int>, ghost par: seq<nat>)
      returns (r: int)
      requires Valid() && forall i :: 0 <= i < TABLE_SECTORS ==> TableReadable(sectors[..], lba, tableLba, i, count)
      requires good ==> Mounting(sectors[..], lba, tableLba, dataLba, count, room, src, q, par)
      modifies fs`kids, fs`depth, fs.pool, fs.used
      ensures Valid() && DefaultsIn(fs.State())
      ensures good ==> r == 0 && forall p :: Get(fs.State(), p) == Get(src, p)
    {
      ghost var disk := sectors[..];
      SizedTree(fs.State());
      hide Tree, ImageIs, Restorable, TableReadable, Get, LoadedTo, DefaultView, DefaultsIn;
      var nodeMap := seq(if count > 0 then count else 0, _ => NULL);
      fs.Init(room(0));
      SizedTree(fs.State());
      FreshDefaults(fs.State(), room(0));
      if good { Fresh(disk, lba, src, q, par, fs.State(), nodeMap); }
      r, nodeMap := LoadTable(lba, tableLba, dataLba, count, nodeMap, room, good, src, q, par);
      if good { EverythingLoaded(src, q, par, fs.State(), nodeMap); }
    }
  }

  // Superblock, table and as many blocks as there can be nodes.
  const IMAGE_SECTORS: nat := 1 + TABLE_SECTORS + 8 * MAX_NODES

  lemma HeadUsed(t: Fs, q: seq<int>, par: seq<nat>, head: nat)
    requires Tree(t) && Filling(t, q, par, head) && head < |q|
    ensures Sized(t) && Used(t, q[head])
    ensures !t.pool[q[head]].isDir ==> Filling(t, q, par, head + 1)
  {
  }

  lemma StartServing(t: Fs, q: seq<int>, par: seq<nat>, head: nat)
    requires Tree(t) && Filling(t, q, par, head) && head < |q| < MAX_NODES && Used(t, q[head]) && t.pool[q[head]].isDir
    ensures Serving(t, q, par, head, 0)
  {
    hide Tree;
  }

  // k_memcpy into a buffer.
  method Fill(buf: array<byte>, at: nat, bytes: seq<byte>)
    requires at + |bytes| <= buf.Length
    modifies buf
    ensures buf[..] == old(buf[..])[..at] + bytes + old(buf[..])[at + |bytes|..]
  {
    for i := 0 to |bytes|
      invariant forall x :: at <= x < at + i ==> buf[x] == bytes[x - at]
      invariant forall x :: 0 <= x < buf.Length && !(at <= x < at + i) ==> buf[x] == old(buf[x])
    {
      buf[at + i] := bytes[i];
    }
  }

  lemma NoneCopied(buf: seq<byte>, disk: seq<Sector>, base: nat, block: nat)
    ensures Copied(buf, disk, base, block, 0)
  {
  }

  lemma NextCopied(was: seq<byte>, buf: seq<byte>, disk: seq<Sector>, base: nat, block: nat, s: nat)
    requires Copied(was, disk, base, block, s) && s < 8 && |was| == |buf| == BLOCK && BlockSector(base, block, s) < |disk|
    requires buf == was[..SECTOR * s] + disk[BlockSector(base, block, s)] + was[SECTOR * s + SECTOR..]
    ensures Copied(buf, disk, base, block, s + 1)
  {
    hide BlockSector;
    forall t, x | 0 <= t < s + 1 && 0 <= x < SECTOR
      ensures SectorByte(buf, t, x) == disk[BlockSector(base, block, t)][x]
    {
      if t < s { assert SECTOR * t + x < SECTOR * s && SectorByte(was, t, x) == disk[BlockSector(base, block, t)][x]; }
    }
  }

  lemma CopiedAll(buf: seq<byte>, disk: seq<Sector>, base: nat, block: nat)
    requires Copied(buf, disk, base, block, 8)
    ensures OnDisk(disk, base, block, 8)
  {
  }

  lemma CopiedBlock(disk: seq<Sector>, base: nat, block: nat, data: seq<byte>)
    requires BlockAt(disk, base, block, data)
    ensures OnDisk(disk, base, block, 8)
  {
    hide Wrap32;
    forall s | 0 <= s < 8 ensures BlockSector(base, block, s) < |disk| {
      assert SectorAt(disk, Wrap32(base + block * 8 + s), DataSector(data, s));
    }
  }

  lemma CopiedIs(buf: seq<byte>, disk: seq<Sector>, base: nat, block: nat, data: seq<byte>)
    requires BlockAt(disk, base, block, data) && Copied(buf, disk, base, block, 8) && |buf| == BLOCK
    ensures buf == Padded(data)
  {
    hide Wrap32, Padded;
    forall k | 0 <= k < BLOCK ensures buf[k] == Padded(data)[k] {
      var s: nat, x: nat := k / SECTOR, k % SECTOR;
      assert SectorAt(disk, Wrap32(base + block * 8 + s), DataSector(data, s));
      assert SectorByte(buf, s, x) == disk[BlockSector(base, block, s)][x] == DataSector(data, s)[x];
    }
  }

  // The number of blocks given out before the n-th slot of the table.
  ghost function BlocksUpTo(fs: Fs, q: seq<int>, n: nat): nat
    requires Sized(fs) && Within(q)
  {
    |DataOf(fs, if n < |q| then q[..n] else q)|
  }

  ghost predicate BlockIs(fs: Fs, q: seq<int>, n: nat, block: nat) {
    Sized(fs) && Within(q) && block == BlocksUpTo(fs, q, n)
  }

  lemma BlockStays(fs: Fs, q: seq<int>, n: nat, block: nat)
    requires BlockIs(fs, q, n, block) && n >= |q|
    ensures BlockIs(fs, q, n + 1, block)
  {
    assert n == |q| ==> q[..n] == q;
  }

  lemma SyncableSized(t: Fs, q: seq<int>, par: seq<nat>)
    requires Syncable(t, q, par)
    ensures Tree(t) && Sized(t) && Within(q) && |q| == |par| <= MAX_NODES
  {
  }

  // A conversion to the 32-bit int.
  function ToInt32(x: nat): int
    requires x < 0x1_0000_0000
  {
    if x < 0x8000_0000 then x else x - 0x1_0000_0000
  }

  predicate HeaderOk(disk: seq<Sector>, lba: nat) {
    lba < |disk| && Field(disk[lba], 0) == MAGIC && Field(disk[lba], 1) == VERSION
  }

  predicate EmptyImage(disk: seq<Sector>, lba: nat) {
    HeaderOk(disk, lba) && Field(disk[lba], 2) == 0
  }

  predicate Mountable(disk: seq<Sector>, lba: nat) {
    HeaderOk(disk, lba) && Field(disk[lba], 2) != 0
  }

  // The records that a load takes from sector i of the table are ones it can load.
  ghost predicate TableReadable(disk: seq<Sector>, lba: nat, tableLba: nat, i: nat, count: int) {
    var x := Wrap32(lba + tableLba + i);
    x < |disk| ==> forall slot :: 0 <= slot < 4 && 4 * i + slot < count ==> RecordOk(RecordAt(disk[x], slot))
  }

  lemma TableReadableAt(disk: seq<Sector>, lba: nat, tableLba: nat, i: nat, count: int)
    requires TableReadable(disk, lba, tableLba, i, count) && Wrap32(lba + tableLba + i) < |disk|
    ensures var s := disk[Wrap32(lba + tableLba + i)];
      forall slot :: 0 <= slot < 4 && 4 * i + slot < count ==> RecordOk(RecordAt(s, slot))
  {
    hide RecordOk, RecordAt, Wrap32;
  }

  ghost predicate Readable(disk: seq<Sector>, lba: nat) {
    lba < |disk| ==> forall i :: 0 <= i < TABLE_SECTORS ==>
      TableReadable(disk, lba, Field(disk[lba], 3), i, ToInt32(Field(disk[lba], 2)))
  }

  ghost predicate AlwaysRoom(room: nat -> bool) {
    forall n :: room(n)
  }

  // A load is under way of an image of src, with room for everything.
  ghost predicate Mounting(disk: seq<Sector>, lba: nat, tableLba: nat, dataLba: nat, count: int, room: nat -> bool,
                           src: Fs, q: seq<int>, par: seq<nat>) {
    && ImageIs(disk, lba, src, q, par) && Restorable(src, q, par) && |disk| <= 0x1_0000_0000
    && tableLba == 1 && dataLba == 1 + TABLE_SECTORS && count == |q| && AlwaysRoom(room)
  }

  lemma MountingFacts(disk: seq<Sector>, lba: nat, tableLba: nat, dataLba: nat, count: int, room: nat -> bool,
                      src: Fs, q: seq<int>, par: seq<nat>)
    requires Mounting(disk, lba, tableLba, dataLba, count, room, src, q, par)
    ensures ImageIs(disk, lba, src, q, par) && Restorable(src, q, par) && Saved(src, q, par) && AlwaysRoom(room)
    ensures |disk| <= 0x1_0000_0000 && tableLba == 1 && dataLba == 1 + TABLE_SECTORS && count == |q|
  {
    hide ImageIs, Saved, AlwaysRoom;
  }

  lemma MountingSector(disk: seq<Sector>, lba: nat, tableLba: nat, dataLba: nat, count: int, room: nat -> bool,
                       src: Fs, q: seq<int>, par: seq<nat>, i: nat)
    requires Mounting(disk, lba, tableLba, dataLba, count, room, src, q, par) && i < TABLE_SECTORS
    ensures count == |q| && Wrap32(lba + tableLba + i) == lba + tableLba + i < |disk|
    ensures AlwaysRoom(room) && Restorable(src, q, par)
    ensures SectorIs(src, q, par, i, disk[lba + tableLba + i], disk, lba + dataLba)
  {
    hide Mounting, Restorable, Saved, EntryIs, RecordAt, IsValid, AlwaysRoom, SlotIs, ImageIs, Wrap32, RecordBytes, RecordOf;
    MountingFacts(disk, lba, tableLba, dataLba, count, room, src, q, par);
    ImageHas(disk, lba, src, q, par, i);
    var s, base := disk[lba + tableLba + i], lba + dataLba;
    forall slot | 0 <= slot < 4 ensures SlotIs(src, q, par, i, s, disk, base, slot) {
      ImageSlot(disk, lba, src, q, par, i, slot);
    }
  }

  lemma ImageHas(disk: seq<Sector>, lba: nat, src: Fs, q: seq<int>, par: seq<nat>, i: nat)
    requires ImageIs(disk, lba, src, q, par) && i < TABLE_SECTORS && |disk| <= 0x1_0000_0000
    ensures lba + 1 + i < |disk|
  {
    hide ImageIs, RecordAt, RecordBytes, RecordOf;
    ImageRecord(disk, lba, src, q, par, i, 0);
  }

  lemma ImageSlot(disk: seq<Sector>, lba: nat, src: Fs, q: seq<int>, par: seq<nat>, i: nat, slot: nat)
    requires ImageIs(disk, lba, src, q, par) && Saved(src, q, par) && |disk| <= 0x1_0000_0000
    requires i < TABLE_SECTORS && slot < 4 && lba + 1 + i < |disk|
    ensures SlotIs(src, q, par, i, disk[lba + 1 + i], disk, lba + 1 + TABLE_SECTORS, slot)
  {
    hide ImageIs, Saved, EntryIs, RecordAt, IsValid;
    if 4 * i + slot < |q| { ImageEntry(disk, lba, src, q, par, i, slot); }
  }

  lemma MountingSize(disk: seq<Sector>, lba: nat, tableLba: nat, dataLba: nat, count: int, room: nat -> bool,
                     src: Fs, q: seq<int>, par: seq<nat>)
    requires Mounting(disk, lba, tableLba, dataLba, count, room, src, q, par)
    ensures |q| <= 4 * TABLE_SECTORS && count == |q|
  {
    hide Restorable;
    ImageHeader(disk, lba, src, q, par);
  }

  // No sector but those from lo to hi differs.
  ghost predicate OnlyWithin(before: seq<Sector>, after: seq<Sector>, lo: nat, hi: nat) {
    |after| == |before| && forall x :: 0 <= x < |after| && !(lo <= x < hi) ==> after[x] == before[x]
  }

  lemma StillWithin(before: seq<Sector>, after: seq<Sector>, lo: nat, hi: nat, x: nat, s: Sector)
    requires OnlyWithin(before, after, lo, hi) && lo <= x < hi
    ensures |after| == |before| && (x < |after| ==> OnlyWithin(before, after[x := s], lo, hi))
  {
  }

  lemma WithinWider(a: seq<Sector>, b: seq<Sector>, c: seq<Sector>, lo: nat, hi: nat, lo': nat, hi': nat)
    requires OnlyWithin(a, b, lo, hi) && OnlyWithin(b, c, lo', hi') && lo <= lo' && hi' <= hi
    ensures OnlyWithin(a, c, lo, hi)
  {
  }

  lemma SlotsStart(t: Fs, q: seq<int>, par: seq<nat>, n: nat)
    requires Syncable(t, q, par)
    ensures Slots(t, q, par, n, 0) + Zeros(SECTOR) == Zeros(SECTOR)
    ensures forall b :: b + Zeros(0) == b
  {
  }

  lemma SlotsGrow(t: Fs, q: seq<int>, par: seq<nat>, n: nat, k: nat, b: seq<byte>)
    requires Syncable(t, q, par) && k < 4 && b == Slots(t, q, par, n, k) + Zeros(SECTOR - RECORD * k)
    ensures |b| == SECTOR
    ensures b[..RECORD * k] + SlotBytes(t, q, par, n + k) + b[RECORD * k + RECORD..]
      == Slots(t, q, par, n, k + 1) + Zeros(SECTOR - RECORD * (k + 1))
    ensures if n + k < |q| then SlotBytes(t, q, par, n + k) == RecordBytes(RecordOf(t, q, par, n + k))
      else b == Slots(t, q, par, n, k + 1) + Zeros(SECTOR - RECORD * (k + 1))
  {
    hide Tree, RecordBytes, RecordOf, Syncable;
    assert Slots(t, q, par, n, k + 1) == Slots(t, q, par, n, k) + SlotBytes(t, q, par, n + k);
    assert SlotBytes(t, q, par, n + k) == if n + k < |q| then RecordBytes(RecordOf(t, q, par, n + k)) else Zeros(RECORD);
    hide Slots, SlotBytes, Zeros;
    SpliceZeros(Slots(t, q, par, n, k), SlotBytes(t, q, par, n + k), SECTOR - RECORD * k);
  }

  lemma SpliceZeros(done: seq<byte>, slot: seq<byte>, left: nat)
    requires |slot| <= left
    ensures var b := done + Zeros(left);
      && b[..|done|] + slot + b[|done| + |slot|..] == done + slot + Zeros(left - |slot|)
      && (slot == Zeros(|slot|) ==> b == done + slot + Zeros(left - |slot|))
  {
    var b := done + Zeros(left);
    assert b[..|done|] == done;
    assert b[|done| + |slot|..] == Zeros(left - |slot|);
  }

  lemma TableStarts(disk: seq<Sector>, base: nat, t: Fs, q: seq<int>, par: seq<nat>)
    requires Syncable(t, q, par)
    ensures TableIs(disk, base, t, q, par, 0) && BlockIs(t, q, 0, 0)
  {
    assert |q| > 0 && q[..0] == [];
  }

  lemma TableGrows(disk: seq<Sector>, base: nat, t: Fs, q: seq<int>, par: seq<nat>, m: nat)
    requires Syncable(t, q, par) && TableIs(disk, base, t, q, par, m)
    ensures base + m < |disk| ==> TableIs(disk[base + m := Slots(t, q, par, 4 * m, 4)], base, t, q, par, m + 1)
  {
    hide Syncable, Slots;
  }

  lemma RecordStep(t: Fs, q: seq<int>, par: seq<nat>, n: nat)
    requires Syncable(t, q, par) && n < |q|
    ensures Sized(t) && Within(q) && Used(t, q[n]) && n < |par|
    ensures RecordOf(t, q, par, n) == (var x := t.pool[q[n]];
      Record(x.name, x.isDir, par[n], |x.data|, if HasData(t, q[n]) then BlocksUpTo(t, q, n) else NULL_IDX))
    ensures BlocksUpTo(t, q, n + 1) == BlocksUpTo(t, q, n) + if HasData(t, q[n]) then 1 else 0
  {
    SyncableSized(t, q, par);
    assert Used(t, q[n]);
    hide Tree, DataOf, Fits, Storable, Queue;
    BlockStep(t, q, n);
  }

  lemma BlockStep(t: Fs, q: seq<int>, n: nat)
    requires Sized(t) && Within(q) && n < |q|
    ensures BlocksUpTo(t, q, n) == |DataOf(t, q[..n])|
    ensures BlocksUpTo(t, q, n + 1) == BlocksUpTo(t, q, n) + if HasData(t, q[n]) then 1 else 0
  {
    DataOfNext(t, q, n);
    hide DataOf;
    assert q[..|q|] == q;
  }

  lemma BlockAdded(before: seq<Sector>, after: seq<Sector>, lba: nat, blocks: seq<seq<byte>>, data: seq<byte>)
    requires DataIs(before, lba, blocks) && lba + 8 * |blocks| + 8 <= |after|
    requires forall x :: lba + 8 * |blocks| <= x < lba + 8 * |blocks| + 8 ==> after[x] == DataSector(data, x - lba - 8 * |blocks|)
    requires OnlyWithin(before, after, lba + 8 * |blocks|, lba + 8 * |blocks| + 8)
    ensures DataIs(after, lba, blocks + [data])
  {
    hide DataSector;
  }

  lemma TableOnly(before: seq<Sector>, after: seq<Sector>, lba: nat)
    requires OnlyWithin(before, after, lba + 1, lba + 1 + TABLE_SECTORS)
    ensures |after| == |before| && OnlyWithin(before, after, lba, lba + IMAGE_SECTORS)
  {
  }

  // The later writes of a sync leave what the earlier ones wrote.
  lemma StagesKept(before: seq<Sector>, tabled: seq<Sector>, filled: seq<Sector>, after: seq<Sector>, lba: nat,
                   t: Fs, q: seq<int>, par: seq<nat>)
    requires Syncable(t, q, par) && TableIs(tabled, lba + 1, t, q, par, TABLE_SECTORS)
    requires DataIs(filled, lba + 1 + TABLE_SECTORS, DataOf(t, q)) && lba < |filled|
    requires OnlyWithin(before, filled, lba, lba + IMAGE_SECTORS)
    requires OnlyWithin(tabled, filled, lba + 1 + TABLE_SECTORS, lba + IMAGE_SECTORS)
    requires after == filled[lba := SuperBytes(|q|, |DataOf(t, q)|)]
    ensures ImageIs(after, lba, t, q, par) && OnlyWithin(before, after, lba, lba + IMAGE_SECTORS)
  {
    hide Syncable, Slots, DataOf, DataSector, SuperBytes;
  }

  lemma Fresh(disk: seq<Sector>, lba: nat, src: Fs, q: seq<int>, par: seq<nat>, f: Fs, nodeMap: seq<int>)
    requires ImageIs(disk, lba, src, q, par) && Tree(f) && AllOnDirs(f) && forall p :: Get(f, p) == DefaultView(p, true)
    ensures LoadedTo(src, q, par, 0, f, nodeMap)
  {
    hide Tree, Get;
  }

  lemma EverythingLoaded(src: Fs, q: seq<int>, par: seq<nat>, f: Fs, nodeMap: seq<int>)
    requires Restorable(src, q, par) && LoadedTo(src, q, par, |q|, f, nodeMap) && Tree(f)
    ensures forall p :: Get(f, p) == Get(src, p)
  {
    hide Tree, Get, SmallFiles, Storable;
    assert |q| > 0;
    forall p ensures Get(f, p) == Get(src, p) { AllLoaded(src, q, par, f, nodeMap, p); }
  }

  lemma FreshDefaults(f: Fs, granted: bool)
    requires Tree(f) && forall p :: Get(f, p) == DefaultView(p, granted)
    ensures DefaultsIn(f)
  {
    hide Tree, Get, DefaultDirs, VersionText;
  }

  lemma SameDefaults(f: Fs, g: Fs)
    requires Tree(f) && Tree(g) && DefaultsIn(f) && forall p :: Get(f, p) == Get(g, p)
    ensures DefaultsIn(g)
  {
    hide Tree, Get, DefaultView;
    forall p ensures Agrees(DefaultView(p, true), Get(g, p)) { assert Agrees(DefaultView(p, true), Get(f, p)); }
  }

  lemma ImageReadable(disk: seq<Sector>, lba: nat, src: Fs, q: seq<int>, par: seq<nat>)
    requires ImageIs(disk, lba, src, q, par) && Saved(src, q, par) && |disk| <= 0x1_0000_0000
    ensures Readable(disk, lba)
    ensures Mountable(disk, lba)
  {
    hide Tree, ImageIs, Saved, RecordOk, RecordAt;
    ImageHeader(disk, lba, src, q, par);
    var tableLba, count := Field(disk[lba], 3), ToInt32(Field(disk[lba], 2));
    hide Field;
    forall i | 0 <= i < TABLE_SECTORS ensures TableReadable(disk, lba, tableLba, i, count) {
      SectorReadable(disk, lba, src, q, par, i);
    }
  }

  lemma SectorReadable(disk: seq<Sector>, lba: nat, src: Fs, q: seq<int>, par: seq<nat>, i: nat)
    requires ImageIs(disk, lba, src, q, par) && Saved(src, q, par) && |disk| <= 0x1_0000_0000 && i < TABLE_SECTORS
    ensures TableReadable(disk, lba, 1, i, |q|)
  {
    hide Tree, ImageIs, Saved, RecordOk, RecordAt;
    var x := Wrap32(lba + 1 + i);
    if x < |disk| {
      var s := disk[x];
      forall slot: nat | 0 <= slot < 4 && 4 * i + slot < |q| ensures RecordOk(RecordAt(s, slot)) {
        ImageEntry(disk, lba, src, q, par, i, slot);
        EntryOk(src, q, par, 4 * i + slot, RecordAt(s, slot), disk, lba + 1 + TABLE_SECTORS);
      }
    }
  }

  lemma EntryOk(src: Fs, q: seq<int>, par: seq<nat>, n: nat, b: seq<byte>, disk: seq<Sector>, base: nat)
    requires EntryIs(src, q, par, n, b, disk, base)
    ensures RecordOk(b)
  {
    EntryReads(src, q, par, n, b, disk, base);
    hide Tree, Saved, RecordOf, RecordBytes;
    RecordReads(RecordOf(src, q, par, n));
  }
}
