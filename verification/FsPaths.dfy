/**
 Printing and resolving paths (sfs_path and sfs_resolve of fs/sfs.c), and why resolving a
 printed path finds the node it was printed for.
 */
module FsPaths {
  import opened FsTree

  // A name a path can carry: not empty, no slash, neither "." nor "..".
  ghost predicate Legal(name: string) {
    name != "" && name != "." && name != ".." && '/' !in name
  }

  // ---- Printing ----

  function Print(names: seq<string>): string {
    if names == [] then "" else "/" + names[0] + Print(names[1..])
  }

  function PathText(names: seq<string>): string {
    if names == [] then "/" else Print(names)
  }

  function Cut(s: string, n: nat): string {
    if |s| <= n then s else s[..n]
  }

  // What fits into a buffer of `size` characters, a component at a time.
  function Clipped(names: seq<string>, out: string, size: nat): (r: string)
    requires size >= 2 && |out| < size
    ensures |r| < size
    decreases |names|
  {
    if names == [] || |out| >= size - 2 then out
    else Clipped(names[1..], Cut(out + "/" + names[0], size - 1), size)
  }

  // A path that fits is printed whole; one that does not is cut short, never overrun.
  lemma {:induction false} ClippedFits(names: seq<string>, out: string, size: nat)
    requires size >= 2 && |out| + |Print(names)| < size && forall n :: n in names ==> n != ""
    ensures Clipped(names, out, size) == out + Print(names)
    decreases |names|
  {
    if names == [] {
    } else {
      assert names[0] in names && forall n :: n in names[1..] ==> n in names;
      var next := out + "/" + names[0];
      assert |Print(names)| == 1 + |names[0]| + |Print(names[1..])|;
      assert |out| < size - 2;
      ClippedFits(names[1..], next, size);
      assert next + Print(names[1..]) == out + Print(names);
    }
  }

  // ---- Resolving ----

  function ComponentEnd(path: string, p: nat): (e: nat)
    requires p <= |path|
    ensures p <= e <= |path| && (e < |path| ==> path[e] == '/') && '/' !in path[p..e]
    decreases |path| - p
  {
    if p < |path| && path[p] != '/' then
      var e := ComponentEnd(path, p + 1);
      assert path[p..e] == [path[p]] + path[p + 1..e];
      e
    else p
  }

  ghost function Step(fs: Fs, cur: int, comp: string): (r: int)
    requires Tree(fs) && Used(fs, cur)
    ensures r == NULL || Used(fs, r)
  {
    if comp == "" || comp == "." then cur
    else if comp == ".." then (if fs.pool[cur].parent != NULL then ParentUsed(fs, cur); fs.pool[cur].parent else cur)
    else FindChild(fs, cur, comp)
  }

  lemma ParentUsed(fs: Fs, cur: int)
    requires Tree(fs) && Used(fs, cur) && fs.pool[cur].parent != NULL
    ensures Used(fs, fs.pool[cur].parent)
  {
  }

  ghost function Walk(fs: Fs, cur: int, path: string, p: nat): (r: int)
    requires Tree(fs) && Used(fs, cur) && p <= |path|
    ensures r == NULL || Used(fs, r)
    decreases |path| - p
  {
    if p == |path| then cur
    else
      var e := ComponentEnd(path, p);
      var next := Step(fs, cur, path[p..e]);
      if next == NULL then NULL else Walk(fs, next, path, if e < |path| then e + 1 else e)
  }

  ghost function Resolved(fs: Fs, cwd: int, path: string): (r: int)
    requires Tree(fs) && Used(fs, cwd)
    ensures r == NULL || Used(fs, r)
  {
    if path != "" && path[0] == '/' then Walk(fs, 0, path, 1) else Walk(fs, cwd, path, 0)
  }

  lemma EndBefore(path: string, p: nat, q: nat)
    requires p <= q <= |path| && (q < |path| ==> path[q] == '/')
    ensures ComponentEnd(path, p) <= q
  {
    var e := ComponentEnd(path, p);
    forall k | p <= k < e ensures path[k] != '/' { assert path[p..e][k - p] == path[k]; }
  }

  // The components of a printed path are its names, and no longer than they are.
  lemma {:induction false} PrintedParts(names: seq<string>, p: nat, size: nat)
    requires p <= |Print(names)| && size > 0 && forall n :: n in names ==> |n| < size
    ensures ComponentEnd(Print(names), p) - p < size
    decreases |names|
  {
    var path := Print(names);
    if names == [] || p == 0 {
      EndBefore(path, p, p);
    } else {
      var first, rest := names[0], Print(names[1..]);
      assert first in names && forall n :: n in names[1..] ==> n in names;
      var head := 1 + |first|;
      assert path == "/" + first + rest && (rest != "" ==> rest[0] == '/');
      if p <= head {
        assert head < |path| ==> path[head] == rest[0];
        EndBefore(path, p, head);
      } else {
        PrintedParts(names[1..], p - head, size);
        var e := ComponentEnd(rest, p - head);
        assert e < |rest| ==> path[head + e] == rest[e];
        EndBefore(path, p, head + e);
      }
    }
  }

  lemma {:induction false} EndOfName(path: string, p: nat, name: string)
    requires p + |name| <= |path| && path[p..p + |name|] == name && '/' !in name
    requires p + |name| == |path| || path[p + |name|] == '/'
    ensures ComponentEnd(path, p) == p + |name|
    decreases |name|
  {
    if name != "" {
      assert path[p] == name[0] && name[0] in name;
      assert path[p + 1..p + 1 + |name[1..]|] == name[1..];
      EndOfName(path, p + 1, name[1..]);
    }
  }

  lemma WalkStep(fs: Fs, cur: int, path: string, p: nat)
    requires Tree(fs) && Used(fs, cur) && p < |path|
    ensures var e := ComponentEnd(path, p);
      var next := Step(fs, cur, path[p..e]);
      Walk(fs, cur, path, p) == if next == NULL then NULL else Walk(fs, next, path, if e < |path| then e + 1 else e)
  {
    hide Tree, Step, ComponentEnd;
  }

  lemma LegalStep(fs: Fs, cur: int, name: string)
    requires Tree(fs) && Used(fs, cur) && Legal(name)
    ensures Step(fs, cur, name) == FindChild(fs, cur, name)
  {
    hide Tree, FindChild;
  }

  lemma LookupStep(fs: Fs, cur: int, names: seq<string>)
    requires Tree(fs) && Used(fs, cur) && names != []
    ensures Lookup(fs, cur, names) == Lookup(fs, FindChild(fs, cur, names[0]), names[1..])
    ensures forall k :: k == NULL || Used(fs, k) ==> Lookup(fs, k, []) == k
  {
    hide Tree, FindChild;
  }

  // Walking a printed list of legal names is looking the names up one after the other.
  lemma {:induction false} WalkPrinted(fs: Fs, cur: int, before: string, names: seq<string>)
    requires Tree(fs) && Used(fs, cur) && names != [] && forall n :: n in names ==> Legal(n)
    ensures Walk(fs, cur, before + Print(names), |before| + 1) == Lookup(fs, cur, names)
    decreases |names|
  {
    hide Tree, FindChild, Used, Walk, ComponentEnd, Step, Legal, Print, Lookup;
    var path, p, name, rest := before + Print(names), |before| + 1, names[0], names[1..];
    assert name in names && forall n :: n in rest ==> n in names;
    LegalStep(fs, cur, name);
    LookupStep(fs, cur, names);
    FirstPrinted(before, names);
    WalkStep(fs, cur, path, p);
    var next := FindChild(fs, cur, name);
    if next == NULL {
      LookupNull(fs, rest);
    } else if rest == [] {
      WalkEnd(fs, next, path);
    } else {
      WalkPrinted(fs, next, before + "/" + name, rest);
    }
  }

  lemma WalkEnd(fs: Fs, cur: int, path: string)
    requires Tree(fs) && Used(fs, cur)
    ensures Walk(fs, cur, path, |path|) == cur
  {
  }

  // Where the first printed name ends.
  lemma FirstPrinted(before: string, names: seq<string>)
    requires names != [] && Legal(names[0])
    ensures var path, p, name := before + Print(names), |before| + 1, names[0];
      && p + |name| <= |path| && ComponentEnd(path, p) == p + |name| && path[p..p + |name|] == name
      && path == before + "/" + name + Print(names[1..])
      && p < |path| && (p + |name| == |path| <==> names[1..] == [])
  {
    var path, p, name, rest := before + Print(names), |before| + 1, names[0], names[1..];
    assert path == before + "/" + name + Print(rest);
    assert path[p..p + |name|] == name;
    if rest != [] { assert Print(rest)[0] == '/'; }
    EndOfName(path, p, name);
  }

  // Resolving a node's printed path, from any current directory, gives the node back exactly when
  // all its proper ancestors are directories, and nothing otherwise.
  lemma ResolveUndoesPath(fs: Fs, i: int, cwd: int)
    requires Tree(fs) && Used(fs, i) && Used(fs, cwd)
    requires forall n :: n in Path(fs, i) ==> Legal(n)
    ensures Resolved(fs, cwd, PathText(Path(fs, i))) == if OnDirs(fs, i) then i else NULL
  {
    var names := Path(fs, i);
    LookupPath(fs, i);
    RootUsed(fs);
    if names == [] {
      WalkEnd(fs, 0, "/");
    } else {
      assert "" + Print(names) == Print(names) && Print(names) != "" && Print(names)[0] == '/';
      hide Tree, Path, Walk, Lookup, Print, OnDirs, Used;
      WalkPrinted(fs, 0, "", names);
    }
  }

  // sfs_resolve undoes sfs_path whenever the printed path fits the buffer.
  lemma PrintedPathResolves(fs: Fs, i: int, cwd: int, size: nat)
    requires Tree(fs) && Used(fs, i) && Used(fs, cwd) && forall n :: n in Path(fs, i) ==> Legal(n)
    requires size >= 2 && |Print(Path(fs, i))| < size
    ensures var names := Path(fs, i);
      var text := if names == [] then "/" else Clipped(names, "", size);
      Resolved(fs, cwd, text) == if OnDirs(fs, i) then i else NULL
  {
    hide Tree, Resolved;
    var names := Path(fs, i);
    assert forall n :: n in names ==> n != "";
    ClippedFits(names, "", size);
    assert "" + Print(names) == Print(names);
    ResolveUndoesPath(fs, i, cwd);
  }

  // ---- Paths in parts ----

  lemma {:induction false} EndShifts(before: string, path: string, p: nat)
    requires p <= |path|
    ensures ComponentEnd(before + path, |before| + p) == |before| + ComponentEnd(path, p)
    decreases |path| - p
  {
    if p < |path| && path[p] != '/' { EndShifts(before, path, p + 1); }
  }

  // What stands before the place where a walk goes on does not matter.
  lemma {:induction false} WalkShifts(fs: Fs, cur: int, before: string, path: string, p: nat)
    requires Tree(fs) && Used(fs, cur) && p <= |path|
    ensures Walk(fs, cur, before + path, |before| + p) == Walk(fs, cur, path, p)
    decreases |path| - p
  {
    hide Tree, Used, Step, ComponentEnd, Walk;
    var whole := before + path;
    if p < |path| {
      var e := ComponentEnd(path, p);
      EndShifts(before, path, p);
      EndMoves(path, p);
      assert whole[|before| + p..|before| + e] == path[p..e];
      WalkStep(fs, cur, path, p);
      WalkStep(fs, cur, whole, |before| + p);
      var next := Step(fs, cur, path[p..e]);
      if next != NULL { WalkShifts(fs, next, before, path, if e < |path| then e + 1 else e); }
    } else {
      WalkEnd(fs, cur, path);
      WalkEnd(fs, cur, whole);
    }
  }

  lemma EndMoves(path: string, p: nat)
    requires p < |path|
    ensures var e := ComponentEnd(path, p); (if e < |path| then e + 1 else e) > p
  {
  }

  lemma {:induction false} EndInFront(a: string, b: string, p: nat)
    requires p <= |a|
    ensures ComponentEnd(a + ("/" + b), p) == ComponentEnd(a, p)
    decreases |a| - p
  {
    if p < |a| && a[p] != '/' { EndInFront(a, b, p + 1); }
  }

  // A walk over two parts is the walk over the second from where the first has led.
  lemma {:induction false} WalkConcat(fs: Fs, cur: int, a: string, b: string, p: nat)
    requires Tree(fs) && Used(fs, cur) && p <= |a|
    ensures var r := Walk(fs, cur, a, p);
      Walk(fs, cur, a + ("/" + b), p) == if r == NULL then NULL else Walk(fs, r, b, 0)
    decreases |a| - p
  {
    hide Tree, Used, ComponentEnd, Walk, Step;
    var whole := a + ("/" + b);
    var e := ComponentEnd(a, p);
    EndInFront(a, b, p);
    WalkStep(fs, cur, whole, p);
    assert whole[p..e] == a[p..e] && whole == (a + "/") + b;
    if p == |a| {
      WalkEnd(fs, cur, a);
      assert Step(fs, cur, "") == cur by { SpecialSteps(fs, cur); }
      WalkShifts(fs, cur, a + "/", b, 0);
    } else {
      EndMoves(a, p);
      WalkStep(fs, cur, a, p);
      var next := Step(fs, cur, a[p..e]);
      if next != NULL {
        if e < |a| {
          WalkConcat(fs, next, a, b, e + 1);
        } else {
          WalkEnd(fs, next, a);
          WalkShifts(fs, next, a + "/", b, 0);
        }
      }
    }
  }

  // The directory above, or the root itself.
  ghost function Above(fs: Fs, i: int): (r: int)
    requires Tree(fs) && Used(fs, i)
    ensures Used(fs, r)
  {
    if i == 0 then 0 else ParentUsed(fs, i); fs.pool[i].parent
  }

  lemma SpecialSteps(fs: Fs, cur: int)
    requires Tree(fs) && Used(fs, cur)
    ensures Step(fs, cur, "") == cur && Step(fs, cur, ".") == cur && Step(fs, cur, "..") == Above(fs, cur)
  {
    assert "."[0] == '.' && "." != ".." && "" != "..";
    assert cur != 0 ==> Used(fs, fs.pool[cur].parent);
  }

  // Resolving "a/b" is walking b from the node that a resolves to.
  lemma ResolveComposes(fs: Fs, cwd: int, a: string, b: string)
    requires Tree(fs) && Used(fs, cwd) && a != ""
    ensures var r := Resolved(fs, cwd, a);
      Resolved(fs, cwd, a + ("/" + b)) == if r == NULL then NULL else Walk(fs, r, b, 0)
  {
    hide Walk;
    RootUsed(fs);
    hide Tree;
    if a[0] == '/' { WalkConcat(fs, 0, a, b, 1); } else { WalkConcat(fs, cwd, a, b, 0); }
  }

  lemma RootUsed(fs: Fs)
    requires Tree(fs)
    ensures Sized(fs) && Used(fs, 0)
  {
  }

  // One component, from a current directory.
  lemma ResolveOne(fs: Fs, cwd: int, name: string)
    requires Tree(fs) && Used(fs, cwd) && name != "" && '/' !in name
    ensures Resolved(fs, cwd, name) == Walk(fs, cwd, name, 0) == Step(fs, cwd, name)
  {
    hide Tree, Step, Walk, ComponentEnd;
    EndOfName(name, 0, name);
    assert name[0] in name && name[0..|name|] == name;
    WalkStep(fs, cwd, name, 0);
    var next := Step(fs, cwd, name);
    if next != NULL { WalkEnd(fs, next, name); }
  }

  // Going up, staying, and going down by one component, from whatever a path resolves to; and the same
  // without a path, from the current directory.
  lemma ResolveSteps(fs: Fs, cwd: int, a: string, name: string)
    requires Tree(fs) && Used(fs, cwd) && a != "" && Legal(name)
    ensures var r := Resolved(fs, cwd, a);
      && Resolved(fs, cwd, a + "/..") == (if r == NULL then NULL else Above(fs, r))
      && Resolved(fs, cwd, a + "/.") == r && Resolved(fs, cwd, a + "/") == r
      && Resolved(fs, cwd, a + ("/" + name)) == (if r == NULL then NULL else FindChild(fs, r, name))
    ensures Resolved(fs, cwd, "..") == Above(fs, cwd) && Resolved(fs, cwd, ".") == cwd && Resolved(fs, cwd, "") == cwd
    ensures Resolved(fs, cwd, name) == FindChild(fs, cwd, name)
  {
    var r := Resolved(fs, cwd, a);
    assert "/" + ".." == "/.." && "/" + "." == "/." && "/" + "" == "/" && '/' !in ".." && '/' !in "." && ".." != "" && "." != "";
    WalkEnd(fs, cwd, "");
    hide Tree, Resolved, Walk, FindChild, Step, Above;
    OneStep(fs, cwd, name);
    Nowhere(fs, cwd);
    ResolveComposes(fs, cwd, a, "..");
    ResolveComposes(fs, cwd, a, ".");
    ResolveComposes(fs, cwd, a, "");
    ResolveComposes(fs, cwd, a, name);
    if r != NULL {
      WalkEnd(fs, r, "");
      OneStep(fs, r, name);
    }
  }

  lemma Nowhere(fs: Fs, cwd: int)
    requires Tree(fs) && Used(fs, cwd)
    ensures Resolved(fs, cwd, "") == cwd
  {
    WalkEnd(fs, cwd, "");
  }

  lemma OneStep(fs: Fs, cwd: int, name: string)
    requires Tree(fs) && Used(fs, cwd) && Legal(name)
    ensures Resolved(fs, cwd, "..") == Walk(fs, cwd, "..", 0) == Above(fs, cwd)
    ensures Resolved(fs, cwd, ".") == Walk(fs, cwd, ".", 0) == cwd
    ensures Resolved(fs, cwd, name) == Walk(fs, cwd, name, 0) == FindChild(fs, cwd, name)
  {
    assert '/' !in ".." && '/' !in "." && ".." != "" && "." != "";
    hide Tree, Resolved, Walk, FindChild, Step, Above;
    ResolveOne(fs, cwd, "..");
    ResolveOne(fs, cwd, ".");
    ResolveOne(fs, cwd, name);
    SpecialSteps(fs, cwd);
    LegalStep(fs, cwd, name);
  }

  // A doubled slash counts as one.
  lemma DoubledSlash(fs: Fs, cwd: int, a: string, b: string)
    requires Tree(fs) && Used(fs, cwd) && a != ""
    ensures Resolved(fs, cwd, a + ("/" + ("/" + b))) == Resolved(fs, cwd, a + ("/" + b))
  {
    hide Tree, Resolved, Walk, ComponentEnd, Step;
    ResolveComposes(fs, cwd, a, b);
    ResolveComposes(fs, cwd, a, "/" + b);
    var r := Resolved(fs, cwd, a);
    if r != NULL {
      assert "" + ("/" + b) == "/" + b;
      WalkConcat(fs, r, "", b, 0);
      WalkEnd(fs, r, "");
    }
  }

  // The names with slashes between them only: a relative path.
  function Joined(names: seq<string>): string {
    if names == [] then "" else Print(names)[1..]
  }

  lemma JoinedBegins(names: seq<string>)
    requires names != [] && Legal(names[0])
    ensures Print(names) == "/" + Joined(names) && Joined(names) != "" && Joined(names)[0] != '/'
  {
    var name, rest := names[0], Print(names[1..]);
    assert Print(names) == "/" + name + rest && Print(names)[1] == name[0] && name[0] in name;
    hide Print;
  }

  // A relative path of legal names leads where looking them up from the current directory leads.
  lemma RelativeResolves(fs: Fs, cwd: int, names: seq<string>)
    requires Tree(fs) && Used(fs, cwd) && names != [] && forall n :: n in names ==> Legal(n)
    ensures Resolved(fs, cwd, Joined(names)) == Lookup(fs, cwd, names)
  {
    hide Tree, Used, Walk, Lookup, Print, Joined, Legal;
    assert names[0] in names;
    JoinedBegins(names);
    assert "" + Print(names) == Print(names);
    WalkPrinted(fs, cwd, "", names);
    WalkShifts(fs, cwd, "/", Joined(names), 0);
  }

  // A path that does not fit is a beginning of it, no more than one character short of the buffer.
  lemma {:induction false} ClippedBegins(names: seq<string>, out: string, size: nat)
    requires size >= 2 && |out| < size
    ensures var r := Clipped(names, out, size);
      r <= out + Print(names) && (r == out + Print(names) || |r| >= size - 2)
    decreases |names|
  {
    if names == [] || |out| >= size - 2 {
    } else {
      var next := out + "/" + names[0];
      assert out + Print(names) == next + Print(names[1..]);
      ClippedBegins(names[1..], Cut(next, size - 1), size);
      var r := Clipped(names, out, size);
      if |next| > size - 1 {
        assert r == Cut(next, size - 1) by { Full(names[1..], Cut(next, size - 1), size); }
      }
    }
  }

  lemma Full(names: seq<string>, out: string, size: nat)
    requires size >= 2 && size - 2 <= |out| < size
    ensures Clipped(names, out, size) == out
  {
  }
}
