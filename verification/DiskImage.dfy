/**
 The image sfs_sync_to_disk leaves on a disk: superblock, node table and data blocks.  The
 blocks are numbered by counting the files with content that come earlier in the queue.
 */
module DiskImage {
  import opened FsTree
  import opened DiskFormat
  import opened DiskOrder

  ghost predicate HasData(fs: Fs, i: int)
    requires Sized(fs) && 0 <= i < MAX_NODES
  {
    !fs.pool[i].isDir && fs.pool[i].data != []
  }

  ghost predicate Within(q: seq<int>) {
    forall j :: 0 <= j < |q| ==> 0 <= q[j] < MAX_NODES
  }

  // The contents of the queued files that have any, in queue order.
  ghost function DataOf(fs: Fs, q: seq<int>): (d: seq<seq<byte>>)
    requires Sized(fs) && Within(q)
    ensures |d| <= |q|
  {
    if q == [] then []
    else
      var i, earlier := q[|q| - 1], DataOf(fs, q[..|q| - 1]);
      if HasData(fs, i) then earlier + [fs.pool[i].data] else earlier
  }

  lemma DataOfNext(fs: Fs, q: seq<int>, n: nat)
    requires Sized(fs) && Within(q) && n < |q|
    ensures DataOf(fs, q[..n + 1]) ==
      if HasData(fs, q[n]) then DataOf(fs, q[..n]) + [fs.pool[q[n]].data] else DataOf(fs, q[..n])
  {
    assert q[..n + 1][..n] == q[..n];
  }

  // A file's block, numbered by the files before it, holds that file's content.
  lemma {:induction false} BlockHolds(fs: Fs, q: seq<int>, n: nat, m: nat)
    requires Sized(fs) && Within(q) && n < m <= |q| && HasData(fs, q[n])
    ensures var k := |DataOf(fs, q[..n])|;
      k < |DataOf(fs, q[..m])| && DataOf(fs, q[..m])[k] == fs.pool[q[n]].data
    decreases m
  {
    hide DataOf, HasData;
    DataOfNext(fs, q, m - 1);
    if n < m - 1 { BlockHolds(fs, q, n, m - 1); }
  }

  // Names and sizes the record fields can hold.
  ghost predicate Storable(fs: Fs)
    requires Tree(fs)
  {
    forall i :: Used(fs, i) ==> CString(fs.pool[i].name) && |fs.pool[i].data| < 0x1_0000_0000
  }

  ghost predicate Syncable(fs: Fs, q: seq<int>, par: seq<nat>) {
    Tree(fs) && Storable(fs) && Queue(fs, q, par)
  }

  ghost function RecordOf(fs: Fs, q: seq<int>, par: seq<nat>, n: nat): (r: Record)
    requires Syncable(fs, q, par) && n < |q|
    ensures Fits(r)
  {
    assert Used(fs, q[n]) && (n > 0 ==> QueuedUnder(fs, q, par, n));
    var x := fs.pool[q[n]];
    Record(x.name, x.isDir, par[n], |x.data|, if HasData(fs, q[n]) then |DataOf(fs, q[..n])| else NULL_IDX)
  }

  ghost function SlotBytes(fs: Fs, q: seq<int>, par: seq<nat>, n: nat): (b: seq<byte>)
    requires Syncable(fs, q, par)
    ensures |b| == RECORD
  {
    if n < |q| then RecordBytes(RecordOf(fs, q, par, n)) else Zeros(RECORD)
  }

  // k consecutive slots of the node table.
  ghost function Slots(fs: Fs, q: seq<int>, par: seq<nat>, n: nat, k: nat): (b: seq<byte>)
    requires Syncable(fs, q, par)
    ensures |b| == RECORD * k
  {
    if k == 0 then [] else Slots(fs, q, par, n, k - 1) + SlotBytes(fs, q, par, n + k - 1)
  }

  lemma {:induction false} SlotAt(fs: Fs, q: seq<int>, par: seq<nat>, n: nat, k: nat, j: nat)
    requires Syncable(fs, q, par) && j < k
    ensures RECORD * j + RECORD <= RECORD * k
    ensures Slots(fs, q, par, n, k)[RECORD * j..RECORD * j + RECORD] == SlotBytes(fs, q, par, n + j)
  {
    hide Syncable, SlotBytes;
    var b := Slots(fs, q, par, n, k);
    if j < k - 1 {
      SlotAt(fs, q, par, n, k - 1, j);
      assert b[RECORD * j..RECORD * j + RECORD] == Slots(fs, q, par, n, k - 1)[RECORD * j..RECORD * j + RECORD];
    }
  }

  // The first m sectors of the node table.
  ghost predicate TableIs(disk: seq<Sector>, base: nat, fs: Fs, q: seq<int>, par: seq<nat>, m: nat)
    requires Syncable(fs, q, par)
  {
    (m > 0 ==> base + m <= |disk|) && forall x :: base <= x < base + m ==> disk[x] == Slots(fs, q, par, 4 * (x - base), 4)
  }

  ghost predicate DataIs(disk: seq<Sector>, base: nat, blocks: seq<seq<byte>>) {
    && (blocks != [] ==> base + 8 * |blocks| <= |disk|)
    && forall x :: base <= x < base + 8 * |blocks| ==> disk[x] == DataSector(blocks[(x - base) / 8], (x - base) % 8)
  }

  ghost predicate ImageIs(disk: seq<Sector>, lba: nat, fs: Fs, q: seq<int>, par: seq<nat>) {
    && Syncable(fs, q, par) && lba < |disk|
    && disk[lba] == SuperBytes(|q|, |DataOf(fs, q)|)
    && TableIs(disk, lba + 1, fs, q, par, TABLE_SECTORS)
    && DataIs(disk, lba + 1 + TABLE_SECTORS, DataOf(fs, q))
  }
}
