/**
 The on-disk layout of ScorpionFS (fs/sfs_disk.h): little-endian fields, a 128-byte record per
 node, four records to a sector, and what is read back from what was written.
 */
module DiskFormat {
  import opened FsTree

  const SECTOR: nat := 512
  const RECORD: nat := 128
  const BLOCK: nat := 4096
  const TABLE_SECTORS: nat := 128
  const MAGIC: nat := 0x53465332
  const VERSION: nat := 1
  const NULL_IDX: nat := 0xFFFF

  function Zeros(n: nat): (b: seq<byte>)
    ensures |b| == n && forall i :: 0 <= i < n ==> b[i] == 0
  {
    seq(n, _ => 0)
  }

  type Sector = s: seq<byte> | |s| == 512 witness Zeros(512)

  function Le16(x: nat): (b: seq<byte>)
    requires x < 0x1_0000
    ensures |b| == 2 && U16(b) == x
  {
    [x % 256, x / 256]
  }

  function U16(b: seq<byte>): (x: nat)
    requires |b| == 2
    ensures x < 0x1_0000
  {
    b[0] as nat + 256 * (b[1] as nat)
  }

  function Le32(x: nat): (b: seq<byte>)
    requires x < 0x1_0000_0000
    ensures |b| == 4 && U32(b) == x
  {
    Le16(x % 0x1_0000) + Le16(x / 0x1_0000)
  }

  function U32(b: seq<byte>): (x: nat)
    requires |b| == 4
    ensures x < 0x1_0000_0000
  {
    U16(b[..2]) + 0x1_0000 * U16(b[2..])
  }

  // Byte i of a number is its i-th digit in base 256, the least significant one first.
  lemma LittleEndian16(x: nat)
    requires x < 0x1_0000
    ensures Le16(x) == [x % 256, x / 256 % 256]
  {
  }

  lemma LittleEndian32(x: nat)
    requires x < 0x1_0000_0000
    ensures Le32(x) == [x % 256, x / 256 % 256, x / 0x1_0000 % 256, x / 0x100_0000 % 256]
  {
    var low, high := x % 0x1_0000, x / 0x1_0000;
    LittleEndian16(low);
    LittleEndian16(high);
    assert x == 0x1_0000 * high + low;
    hide Le16;
    LowDigits(x);
  }

  lemma LowDigits(x: nat)
    ensures x % 0x1_0000 % 256 == x % 256 && x % 0x1_0000 / 256 % 256 == x / 256 % 256
    ensures x / 0x1_0000 / 256 == x / 0x100_0000
  {
    var high, low := x / 0x1_0000, x % 0x1_0000;
    assert x == 256 * (256 * high + low / 256) + low % 256;
    assert x / 256 == 256 * high + low / 256;
  }

  // ---- Names ----

  // What a 64-byte name field can hold.
  ghost predicate CString(name: string) {
    |name| < 64 && forall i :: 0 <= i < |name| ==> 0 < name[i] as int < 256
  }

  function Bytes(name: string): (b: seq<byte>)
    requires forall i :: 0 <= i < |name| ==> name[i] as int < 256
    ensures |b| == |name| && forall i :: 0 <= i < |name| ==> b[i] == name[i] as int
  {
    seq(|name|, i requires 0 <= i < |name| => name[i] as int)
  }

  function NameField(name: string): (b: seq<byte>)
    requires CString(name)
    ensures |b| == 64
  {
    Bytes(name) + Zeros(64 - |name|)
  }

  // The string up to the first zero byte.
  function CName(field: seq<byte>): (name: string)
    ensures |name| <= |field| && (0 in field ==> |name| < |field|)
  {
    if field == [] || field[0] == 0 then "" else [field[0] as char] + CName(field[1..])
  }

  lemma {:induction false} CNameReads(field: seq<byte>, name: string)
    requires |name| < |field| && forall i :: 0 <= i < |name| ==> 0 < name[i] as int < 256 && field[i] == name[i] as int
    requires field[|name|] == 0
    ensures CName(field) == name
    decreases |name|
  {
    if name != "" { CNameReads(field[1..], name[1..]); }
  }

  // ---- Node records ----

  datatype Record = Record(name: string, isDir: bool, parent: nat, size: nat, block: nat)

  ghost predicate Fits(r: Record) {
    CString(r.name) && r.parent < 0x1_0000 && r.size < 0x1_0000_0000 && r.block < 0x1_0000_0000
  }

  function RecordBytes(r: Record): (b: seq<byte>)
    requires Fits(r)
    ensures |b| == RECORD
  {
    NameField(r.name) + [if r.isDir then 1 else 0, 1] + Le16(r.parent) + Le32(r.size) + Le32(r.block) + Zeros(52)
  }

  predicate IsValid(b: seq<byte>)
    requires |b| == RECORD
  {
    b[65] != 0
  }

  function ReadRecord(b: seq<byte>): Record
    requires |b| == RECORD
  {
    Record(CName(b[..64]), b[64] == 1, U16(b[66..68]), U32(b[68..72]), U32(b[72..76]))
  }

  lemma RecordReads(r: Record)
    requires Fits(r)
    ensures IsValid(RecordBytes(r)) && ReadRecord(RecordBytes(r)) == r
    ensures 0 in RecordBytes(r)[..64]
  {
    var b := RecordBytes(r);
    RecordFields(r);
    var field := NameField(r.name);
    assert field[|r.name|] == 0;
    CNameReads(field, r.name);
  }

  lemma RecordFields(r: Record)
    requires Fits(r)
    ensures var b := RecordBytes(r);
      && b[..64] == NameField(r.name) && b[64] == (if r.isDir then 1 else 0) && b[65] == 1
      && b[66..68] == Le16(r.parent) && b[68..72] == Le32(r.size) && b[72..76] == Le32(r.block)
  {
    hide Le16, Le32, NameField;
  }

  // The record byte by byte, as struct sfs_disk_node lays it out.
  lemma RecordLayout(r: Record, i: nat)
    requires Fits(r) && i < RECORD
    ensures RecordBytes(r)[i] ==
      if i < |r.name| then r.name[i] as int
      else if i == 64 then (if r.isDir then 1 else 0)
      else if i == 65 then 1
      else if i == 66 then r.parent % 256 else if i == 67 then r.parent / 256
      else if i == 68 then r.size % 256 else if i == 69 then r.size / 256 % 256
      else if i == 70 then r.size / 0x1_0000 % 256 else if i == 71 then r.size / 0x100_0000
      else if i == 72 then r.block % 256 else if i == 73 then r.block / 256 % 256
      else if i == 74 then r.block / 0x1_0000 % 256 else if i == 75 then r.block / 0x100_0000
      else 0
  {
    LittleEndian16(r.parent);
    LittleEndian32(r.size);
    LittleEndian32(r.block);
    hide Le16, Le32;
  }

  // ---- Superblock ----

  function SuperBytes(count: nat, blocks: nat): (b: seq<byte>)
    requires count < 0x1_0000_0000 && blocks < 0x1_0000_0000
    ensures |b| == SECTOR
  {
    Le32(MAGIC) + Le32(VERSION) + Le32(count) + Le32(1) + Le32(TABLE_SECTORS) + Le32(1 + TABLE_SECTORS) + Le32(blocks)
    + Zeros(484)
  }

  function Field(b: seq<byte>, k: nat): nat
    requires 4 * k + 4 <= |b|
  {
    U32(b[4 * k..4 * k + 4])
  }

  lemma SuperReads(count: nat, blocks: nat)
    requires count < 0x1_0000_0000 && blocks < 0x1_0000_0000
    ensures var b := SuperBytes(count, blocks);
      && Field(b, 0) == MAGIC && Field(b, 1) == VERSION && Field(b, 2) == count
      && Field(b, 3) == 1 && Field(b, 4) == TABLE_SECTORS && Field(b, 5) == 1 + TABLE_SECTORS && Field(b, 6) == blocks
  {
    hide Le32, U32;
    var b := SuperBytes(count, blocks);
    assert b[0..4] == Le32(MAGIC) && b[4..8] == Le32(VERSION) && b[8..12] == Le32(count);
    assert b[12..16] == Le32(1) && b[16..20] == Le32(TABLE_SECTORS) && b[20..24] == Le32(1 + TABLE_SECTORS);
    assert b[24..28] == Le32(blocks);
  }

  // A superblock starts with the characters 2SFS and the number 1.
  lemma SuperStarts(count: nat, blocks: nat)
    requires count < 0x1_0000_0000 && blocks < 0x1_0000_0000
    ensures SuperBytes(count, blocks)[..8] == [0x32, 0x53, 0x46, 0x53, 1, 0, 0, 0]
  {
    LittleEndian32(MAGIC);
    LittleEndian32(VERSION);
    hide Le32;
    assert SuperBytes(count, blocks)[..8] == Le32(MAGIC) + Le32(VERSION);
  }

  // ---- Data blocks ----

  function Padded(data: seq<byte>): (b: seq<byte>)
    ensures |b| == BLOCK
  {
    if |data| < BLOCK then data + Zeros(BLOCK - |data|) else data[..BLOCK]
  }

  function DataSector(data: seq<byte>, s: nat): Sector
    requires s < 8
  {
    Padded(data)[SECTOR * s..SECTOR * s + SECTOR]
  }
}
