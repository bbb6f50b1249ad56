/** Path names, a tree of files without links, and the working directory. */
module Paths {
  import opened Options
  import opened Sequences
  import opened Types

  /** A place in the tree, by the names from the root down. */
  type Place = seq<string>

  /** A file that parses has imports; `sound` tells whether its declarations are free of errors, given
      which of the imports were found. */
  datatype Entry = Folder | File(parses: bool, imports: seq<string>, sound: seq<bool> -> bool)

  type Tree = map<Place, Entry>

  ghost predicate IsTree(t: Tree) {
    && [] in t && t[[]].Folder?
    && forall p <- t :: p != [] ==> p[..|p| - 1] in t && t[p[..|p| - 1]].Folder?
  }

  predicate IsFolder(t: Tree, p: Place) {
    p in t && t[p].Folder?
  }

  predicate IsFile(t: Tree, p: Place) {
    p in t && t[p].File?
  }

  function Parent(p: Place): Place {
    if p == [] then [] else p[..|p| - 1]
  }

  // ---------- resolving names ----------

  /** The part up to the first `/`, and whether there is one. */
  function Slash(path: string): (i: nat)
    ensures i <= |path| && '/' !in path[..i] && (i < |path| ==> path[i] == '/')
  {
    if path == "" || path[0] == '/' then 0 else 1 + Slash(path[1..])
  }

  function Components(path: string): (cs: seq<string>)
    ensures cs != []
    decreases |path|
  {
    var i := Slash(path);
    if i == |path| then [path] else [path[..i]] + Components(path[i + 1..])
  }

  function FollowName(t: Tree, at: Place, name: string): Option<Place> {
    if !IsFolder(t, at) then None
    else if name == "" || name == "." then Some(at)
    else if name == ".." then Some(Parent(at))
    else if at + [name] in t then Some(at + [name])
    else None
  }

  function FollowNames(t: Tree, at: Place, names: seq<string>): Option<Place>
    decreases |names|
  {
    if names == [] then Some(at)
    else
      match FollowName(t, at, names[0])
      case Some(next) => FollowNames(t, next, names[1..])
      case None => None
  }

  function RealPath(t: Tree, cwd: Place, path: string): Option<Place> {
    if path == "" then None
    else FollowNames(t, if path[0] == '/' then [] else cwd, Components(path))
  }

  /** A failed change of directory leaves everything as it is. */
  function ChangedDir(t: Tree, cwd: Place, dir: string): Place {
    match RealPath(t, cwd, dir)
    case Some(p) => if IsFolder(t, p) then p else cwd
    case None => cwd
  }

  // ---------- splitting off the file name ----------

  /** What comes before the last `/`, if there is one. */
  function DirOf(path: string): Option<string> {
    if '/' !in path then None
    else if path[|path| - 1] == '/' then Some(path[..|path| - 1])
    else DirOf(path[..|path| - 1])
  }

  method SplitFilenameDir(path: string) returns (dir: Option<string>, filename: string)
    ensures dir == DirOf(path)
    ensures '/' !in filename && path == (if dir.Some? then dir.value + "/" else "") + filename
  {
    var i := |path|;
    assert path[..i] == path;
    while i > 0
      invariant 0 <= i <= |path|
      invariant '/' !in path[i..]
      invariant DirOf(path) == DirOf(path[..i])
    {
      i := i - 1;
      if path[i] == '/' {
        assert path[..i + 1][|path[..i + 1]| - 1] == '/' && path[..i + 1][..i] == path[..i];
        return Some(path[..i]), path[i + 1..];
      }
      DirOfSkips(path, i);
    }
    return None, path;
  }

  lemma DirOfSkips(path: string, i: nat)
    requires i < |path| && path[i] != '/'
    ensures DirOf(path[..i + 1]) == DirOf(path[..i])
  {
    var p := path[..i + 1];
    assert p[..|p| - 1] == path[..i];
    assert p == path[..i] + [path[i]];
  }

  /** The directory in which a file's imports are resolved. */
  function BaseFor(t: Tree, cwd: Place, path: string): Place {
    match DirOf(path)
    case Some(dir) => ChangedDir(t, cwd, dir)
    case None => cwd
  }

  lemma {:induction false} FollowApart(t: Tree, at: Place, xs: seq<string>, ys: seq<string>)
    ensures FollowNames(t, at, xs + ys) == match FollowNames(t, at, xs) case Some(p) => FollowNames(t, p, ys) case None => None
    decreases |xs|
  {
    if xs == [] {
      assert xs + ys == ys;
    } else {
      assert (xs + ys)[1..] == xs[1..] + ys;
      if FollowName(t, at, xs[0]).Some? {
        FollowApart(t, FollowName(t, at, xs[0]).value, xs[1..], ys);
      }
    }
  }

  lemma {:induction false} ComponentsApart(dir: string, name: string)
    requires '/' !in name
    ensures Components(dir + "/" + name) == Components(dir) + [name]
    decreases |dir|
  {
    SlashAppend(dir, name);
    var i := Slash(dir);
    if i == |dir| {
      CutAtSlash(dir, name, dir, name);
      NoSlash(name);
    } else {
      CutAtSlash(dir, name, dir[..i], dir[i + 1..] + "/" + name);
      ComponentsApart(dir[i + 1..], name);
      Associate([dir[..i]], Components(dir[i + 1..]), [name]);
    }
  }

  lemma CutAtSlash(dir: string, name: string, first: string, rest: string)
    requires dir + "/" + name == first + "/" + rest && Slash(dir + "/" + name) == |first|
    ensures Components(dir + "/" + name) == [first] + Components(rest)
  {
    var path := first + "/" + rest;
    assert path[..|first|] == first && path[|first| + 1..] == rest;
  }

  lemma {:induction false} SlashAppend(dir: string, name: string)
    ensures Slash(dir + "/" + name) == Slash(dir)
    decreases |dir|
  {
    var path := dir + "/" + name;
    if dir != "" && dir[0] != '/' {
      assert path[1..] == dir[1..] + "/" + name;
      SlashAppend(dir[1..], name);
    }
  }

  lemma {:induction false} NoSlash(name: string)
    requires '/' !in name
    ensures Slash(name) == |name|
  {
    if name != "" {
      NoSlash(name[1..]);
    }
  }

  /** One more name after a path. */
  lemma OneMore(t: Tree, cwd: Place, path: string, name: string)
    requires path != "" && '/' !in name && RealPath(t, cwd, path).Some?
    ensures RealPath(t, cwd, path + "/" + name) == FollowName(t, RealPath(t, cwd, path).value, name)
  {
    var start := if path[0] == '/' then [] else cwd;
    var p := RealPath(t, cwd, path).value;
    ComponentsApart(path, name);
    FollowApart(t, start, Components(path), [name]);
    assert FollowNames(t, p, [name]) == match FollowName(t, p, name) case Some(q) => FollowNames(t, q, [name][1..]) case None => None;
  }

  /** What follows a path to a folder: an entry of the folder, the folder itself, or the one that it is in;
      the root is in itself. */
  lemma PathGoesOn(t: Tree, cwd: Place, path: string, name: string)
    requires RealPath(t, cwd, path).Some? && IsFolder(t, RealPath(t, cwd, path).value)
    requires '/' !in name && name != "" && name != "." && name != ".."
    ensures var p := RealPath(t, cwd, path).value;
      && RealPath(t, cwd, path + "/" + name) == (if p + [name] in t then Some(p + [name]) else None)
      && RealPath(t, cwd, path + "/" + "") == Some(p)
      && RealPath(t, cwd, path + "/" + ".") == Some(p)
      && RealPath(t, cwd, path + "/" + "..") == Some(if p == [] then [] else p[..|p| - 1])
  {
    OneMore(t, cwd, path, name);
    OneMore(t, cwd, path, "");
    OneMore(t, cwd, path, ".");
    OneMore(t, cwd, path, "..");
  }

  /** Only a file directly below the root, named from the root, is loaded in the wrong directory, and
      only if the working directory is not the root anyway. */
  predicate NamedInRoot(path: string) {
    DirOf(path) == Some("")
  }

  lemma BaseIsParent(t: Tree, cwd: Place, path: string)
    requires IsTree(t) && IsFolder(t, cwd)
    requires RealPath(t, cwd, path).Some? && IsFile(t, RealPath(t, cwd, path).value)
    ensures BaseFor(t, cwd, path) == Parent(RealPath(t, cwd, path).value) <==> !(NamedInRoot(path) && cwd != [])
  {
    var dir, name := SplitOf(path);
    if dir.None? {
      NoSlash(name);
      LastStep(t, cwd, name, RealPath(t, cwd, path).value);
    } else {
      FirstOf(dir.value, name);
      ComponentsApart(dir.value, name);
      BaseOfNamed(t, cwd, path, dir.value, name);
    }
  }

  lemma {:induction false} SplitOf(path: string) returns (dir: Option<string>, name: string)
    ensures dir == DirOf(path) && '/' !in name
    ensures path == if dir.Some? then dir.value + "/" + name else name
    decreases |path|
  {
    if '/' !in path {
      return None, path;
    }
    var n := |path| - 1;
    assert path == path[..n] + [path[n]];
    if path[n] == '/' {
      return Some(path[..n]), "";
    }
    var rest;
    dir, rest := SplitOf(path[..n]);
    name := rest + [path[n]];
  }

  lemma FirstOf(dir: string, name: string)
    ensures dir + "/" + name != "" && (dir + "/" + name)[0] == if dir == "" then '/' else dir[0]
  {
  }

  lemma BaseOfNamed(t: Tree, cwd: Place, path: string, dir: string, name: string)
    requires IsTree(t) && IsFolder(t, cwd)
    requires RealPath(t, cwd, path).Some? && IsFile(t, RealPath(t, cwd, path).value)
    requires path != "" && DirOf(path) == Some(dir) && Components(path) == Components(dir) + [name]
    requires path[0] == if dir == "" then '/' else dir[0]
    ensures BaseFor(t, cwd, path) == Parent(RealPath(t, cwd, path).value) <==> !(dir == "" && cwd != [])
  {
    var p := RealPath(t, cwd, path).value;
    var start := if path[0] == '/' then [] else cwd;
    FollowApart(t, start, Components(dir), [name]);
    var above := FollowNames(t, start, Components(dir)).value;
    LastStep(t, above, name, p);
    if dir == "" {
      RootAlone(t);
      assert BaseFor(t, cwd, path) == cwd && Parent(p) == [];
    } else {
      assert RealPath(t, cwd, dir) == Some(above);
      assert BaseFor(t, cwd, path) == above;
    }
  }

  lemma RootAlone(t: Tree)
    requires IsTree(t)
    ensures FollowNames(t, [], Components("")) == Some([])
  {
    assert Components("") == [""];
    assert FollowName(t, [], "") == Some([]);
    assert FollowNames(t, [], [""]) == FollowNames(t, [], [""][1..]);
  }

  /** The last name on the way to a file is the file's own. */
  lemma LastStep(t: Tree, at: Place, name: string, p: Place)
    requires IsTree(t) && FollowNames(t, at, [name]) == Some(p) && IsFile(t, p)
    ensures IsFolder(t, at) && p == at + [name] && Parent(p) == at
  {
    assert FollowNames(t, at, [name]) == match FollowName(t, at, name) case Some(next) => FollowNames(t, next, []) case None => None;
    assert FollowName(t, at, name) == Some(p);
    assert at != [] ==> Parent(at) == at[..|at| - 1] && IsFolder(t, Parent(at));
  }

  lemma {:induction false} DirOfNamed(dir: string, name: string)
    requires '/' !in name
    ensures DirOf(dir + "/" + name) == Some(dir)
    decreases |name|
  {
    var path := dir + "/" + name;
    var n := |path| - 1;
    assert path[|dir|] == '/';
    if name == "" {
      assert path[..n] == dir;
    } else {
      assert path[n] == name[|name| - 1];
      assert path[..n] == dir + "/" + name[..|name| - 1];
      DirOfNamed(dir, name[..|name| - 1]);
    }
  }

  /** From a folder other than the root, a file in the root is found by its name from the root, but its
      imports are looked up in the folder. */
  lemma RootFileMisplaced(t: Tree, cwd: Place, name: string)
    requires IsTree(t) && IsFolder(t, cwd) && cwd != []
    requires '/' !in name && name != "" && name != "." && name != ".." && IsFile(t, [name])
    ensures RealPath(t, cwd, "" + "/" + name) == Some([name]) && Parent([name]) == []
    ensures BaseFor(t, cwd, "" + "/" + name) == cwd
  {
    var path := "" + "/" + name;
    FirstOf("", name);
    ComponentsApart("", name);
    DirOfNamed("", name);
    RootAlone(t);
    FollowApart(t, [], Components(""), [name]);
    RootHas(t, name);
  }

  lemma RootHas(t: Tree, name: string)
    requires IsTree(t) && name != "" && name != "." && name != ".." && [name] in t
    ensures FollowNames(t, [], [name]) == Some([name])
  {
    assert [] + [name] == [name];
    assert FollowName(t, [], name) == Some([name]);
    assert FollowNames(t, [], [name]) == FollowNames(t, [name], [name][1..]);
  }

  /** There are such trees. */
  lemma RootFileExample(sound: seq<bool> -> bool)
    ensures var t: Tree := map[[] := Folder, ["d"] := Folder, ["x"] := File(true, [], sound)];
      && IsTree(t) && RealPath(t, ["d"], "" + "/" + "x") == Some(["x"])
      && BaseFor(t, ["d"], "" + "/" + "x") == ["d"] != Parent(["x"])
  {
    var t: Tree := map[[] := Folder, ["d"] := Folder, ["x"] := File(true, [], sound)];
    forall p | p in t && p != [] ensures p[..|p| - 1] == [] {
    }
    RootFileMisplaced(t, ["d"], "x");
  }
}
