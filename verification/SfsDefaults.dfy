/**
 A file system that a mount does not restore: a default directory is deleted, the rest is synced
 (fs/sfs.c, fs/sfs_disk.c), and the directory is back after mounting.
 */
module SfsDefaults {
  import opened FsTree
  import opened ScorpionFs
  import opened DiskFormat
  import opened DiskImage
  import opened DiskLoad
  import opened SfsDisk

  // Start with the default entries and remove /tmp.
  method InitWithoutTmp(fs: FileSystem)
    requires fs.pool.Length == fs.used.Length == MAX_NODES
    modifies fs`kids, fs`depth, fs.pool, fs.used
    ensures fs.Valid() && Storable(fs.State()) && SmallFiles(fs.State())
    ensures forall p :: Get(fs.State(), p) == if p == ["tmp"] then None else DefaultView(p, true)
  {
    fs.Init(true);
    ghost var made := fs.State();
    SizedTree(made);
    DefaultTmp(made);
    hide Tree, DefaultView, FindChild, Storable, SmallFiles, AllOnDirs, ShortNames;
    var tmp := fs.FindChildByName(0, "tmp");
    var r;
    ghost var j;
    r, j := fs.Delete(tmp);
    WithoutTmp(made, tmp, j);
  }

  // A sync and a mount bring it back.
  method MissingDefaultReturns(store: Store, lba: nat, room: nat -> bool) returns (r: int, ghost before: Option<Entry>)
    requires store.Valid() && lba + IMAGE_SECTORS <= store.sectors.Length <= 0x1_0000_0000 && AlwaysRoom(room)
    modifies store.sectors, store.bfsQueue, store.bfsParent, store.fs`kids, store.fs`depth, store.fs.pool, store.fs.used
    ensures store.Valid() && before == None && Get(store.fs.State(), ["tmp"]) == Some(Dir)
  {
    SizedTree(store.fs.State());
    hide Tree, Get, Storable, SmallFiles, DefaultsIn;
    InitWithoutTmp(store.fs);
    before := Get(store.fs.State(), ["tmp"]);
    r := store.SyncAndMount(lba, room);
    DefaultTmpIn(store.fs.State());
  }

  lemma DefaultTmpIn(fs: Fs)
    requires Tree(fs) && DefaultsIn(fs)
    ensures Get(fs, ["tmp"]) == Some(Dir)
  {
    hide Tree, Get;
    var p := ["tmp"];
    assert p[0] == DefaultDirs()[3];
    assert Agrees(DefaultView(p, true), Get(fs, p));
  }

  lemma ChildShown(fs: Fs, a: int, k: int)
    requires Tree(fs) && Used(fs, a) && k in fs.kids[a] && AllOnDirs(fs)
    ensures Used(fs, k) && Get(fs, Path(fs, a) + [fs.pool[k].name]) != None
  {
    assert ChildrenOf(fs, a);
    assert Path(fs, k) == Path(fs, a) + [fs.pool[k].name];
    hide Tree;
    LookupPath(fs, k);
  }

  lemma NoSuch(name: string)
    ensures DefaultView(["tmp"] + [name], true) == None
  {
    var p := ["tmp"] + [name];
    assert |p| == 2 && p[0] == "tmp" && "tmp"[0] != "etc"[0] && ["etc", "version"][0] == "etc";
  }

  // The directory is there, and nothing is in it.
  lemma DefaultTmp(fs: Fs)
    requires Tree(fs) && AllOnDirs(fs) && forall p :: Get(fs, p) == DefaultView(p, true)
    ensures var tmp := FindChild(fs, 0, "tmp");
      tmp != NULL && tmp != 0 && fs.kids[tmp] == [] && Path(fs, tmp) == ["tmp"] && OnDirs(fs, tmp)
  {
    var tmp := FindChild(fs, 0, "tmp");
    assert ["tmp"][0] == DefaultDirs()[3] && Get(fs, ["tmp"]) == DefaultView(["tmp"], true) == Some(Dir);
    ChildOfRoot(fs, "tmp");
    LookupIsPath(fs, ["tmp"]);
    hide Tree, DefaultDirs, FindChild, DefaultView, Lookup, AllOnDirs;
    if fs.kids[tmp] != [] {
      KidsInRange(fs, tmp);
      SizedTree(fs);
      NoSuch(fs.pool[fs.kids[tmp][0]].name);
      ChildShown(fs, tmp, fs.kids[tmp][0]);
      assert false;
    }
  }

  lemma WithoutTmp(fs: Fs, tmp: int, j: nat)
    requires CanRemove(fs, tmp, j) && Tree(Removed(fs, tmp, j)) && Sized(fs)
    requires AllOnDirs(fs) && BareDirs(fs) && forall p :: Get(fs, p) == DefaultView(p, true)
    requires Path(fs, tmp) == ["tmp"] && OnDirs(fs, tmp)
    ensures var fs' := Removed(fs, tmp, j);
      && Storable(fs') && SmallFiles(fs')
      && forall p :: Get(fs', p) == if p == ["tmp"] then None else DefaultView(p, true)
  {
    hide Tree, Removed, DefaultView, CString, AllOnDirs, BareDirs, Path, OnDirs, Get;
    var fs' := Removed(fs, tmp, j);
    RemoveFacts(fs, tmp, j);
    RemovedNodes(fs, tmp, j);
    forall i | Used(fs', i) ensures CString(fs'.pool[i].name) && |fs'.pool[i].data| <= BLOCK {
      DefaultNode(fs, i);
    }
    forall p ensures Get(fs', p) == if p == ["tmp"] then None else DefaultView(p, true) {
      RemoveChangesView(fs, tmp, j, p);
    }
  }

  lemma RemovedNodes(fs: Fs, n: int, j: nat)
    requires CanRemove(fs, n, j)
    ensures var fs' := Removed(fs, n, j);
      Sized(fs) && Sized(fs') && forall i :: 0 <= i < MAX_NODES ==> SameNode(fs.pool[i], fs'.pool[i])
  {
    hide Tree;
  }

  // A default entry's name and content.
  lemma DefaultNode(fs: Fs, i: int)
    requires Tree(fs) && Used(fs, i) && AllOnDirs(fs) && BareDirs(fs)
    requires forall p :: Get(fs, p) == DefaultView(p, true)
    ensures CString(fs.pool[i].name) && |fs.pool[i].data| <= BLOCK
  {
    hide CString, DefaultView;
    LookupPath(fs, i);
    var p := Path(fs, i);
    assert Get(fs, p) == Some(EntryOf(fs, i));
    DefaultNames(p);
    assert i != 0 ==> p[|p| - 1] == fs.pool[i].name;
  }

  lemma DefaultNames(p: seq<string>)
    requires DefaultView(p, true) != None
    ensures CString("/") && (p != [] ==> CString(p[|p| - 1]))
    ensures DefaultView(p, true).value.File? ==> |DefaultView(p, true).value.data| <= BLOCK
  {
    var d := DefaultDirs();
    assert CString(d[0]) && CString(d[1]) && CString(d[2]) && CString(d[3]) && CString(d[4]) && CString("version");
    hide CString;
  }
}
