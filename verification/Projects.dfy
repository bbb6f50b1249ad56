/** Loading the modules of a project from a tree of files, with a working directory. */
module Projects {
  import opened Options
  import opened Sequences
  import opened Paths
  import opened Imports
  import opened Sites

  /** Imports do not run in circles: from the sites in `rank`, it goes down along every import that leads
      to a file. */
  datatype Sources = Sources(tree: Tree, rank: map<Site, nat>)
  {
    predicate Parses(p: Place) {
      IsFile(tree, p) && tree[p].parses
    }

    /** Where a path leads from a folder, if to a file. */
    function Target(base: Place, path: string): Option<Site> {
      match RealPath(tree, base, path)
      case Some(p) => if IsFile(tree, p) then Some(Site(p, BaseFor(tree, base, path))) else None
      case None => None
    }

    function Targets(x: Site): seq<Option<Site>>
      requires Parses(x.file)
    {
      seq(|tree[x.file].imports|, i requires 0 <= i < |tree[x.file].imports| => Target(x.base, tree[x.file].imports[i]))
    }

    function SiteGraph(): SiteGraph {
      Sites.SiteGraph(map x | x in rank :: if Parses(x.file) then Parsed(Targets(x), tree[x.file].sound) else Broken, rank)
    }

    ghost predicate Ok() {
      IsTree(tree) && SiteGraph().Ok() && forall x <- rank :: IsFile(tree, x.file) && IsFolder(tree, x.base)
    }

    /** No file outside the root names one in the root from there. */
    ghost predicate WellNamed() {
      forall p <- tree, i | Parses(p) && 0 <= i < |tree[p].imports| :: !(NamedInRoot(tree[p].imports[i]) && Parent(p) != [])
    }

    /** The graph of imports, each looked up in the folder that the file is in. */
    function ImportGraph(): Graph {
      Graph(map p | p in tree && Home(p) in rank ::
              if Parses(p) then Parsed(Files(Targets(Home(p))), tree[p].sound) else Broken,
            map p | p in tree && Home(p) in rank :: rank[Home(p)])
    }

    function Files(xs: seq<Option<Site>>): seq<Option<Place>> {
      seq(|xs|, i requires 0 <= i < |xs| => if xs[i].Some? then Some(xs[i].value.file) else None)
    }

    lemma TargetAtHome(p: Place, i: nat)
      requires Ok() && WellNamed() && p in tree && Home(p) in rank && Parses(p) && i < |tree[p].imports|
      requires Target(Parent(p), tree[p].imports[i]).Some?
      ensures var x := Target(Parent(p), tree[p].imports[i]).value; x == Home(x.file) && x in rank && rank[x] < rank[Home(p)]
    {
      BaseIsParent(tree, Parent(p), tree[p].imports[i]);
      var imports := SiteGraph().node[Home(p)].imports;
      assert imports[i] == Target(Parent(p), tree[p].imports[i]) && imports[i] in imports;
    }

    /** What loading from nothing comes to. */
    lemma LoadedAtHome(cwd: Place, path: string)
      requires Ok() && WellNamed() && IsFolder(tree, cwd) && !(NamedInRoot(path) && cwd != [])
      requires Target(cwd, path).Some? && Target(cwd, path).value in rank
      ensures var x, g := Target(cwd, path).value, ImportGraph();
        && g.Ok() && x.file in g.node
        && var r := SiteGraph().Load(x, []);
           && g.InOrder(r.modules) && (r.ok <==> g.Loadable(x.file))
           && (forall q :: q in r.modules <==> q in g.Reach(x.file) && g.Loadable(q))
           && (r.ok ==> r.modules != [] && r.modules[|r.modules| - 1] == x.file)
           && (forall q <- g.Reach(x.file) :: q in r.modules <==> Settled(q, r.modules))
    {
      var x := Target(cwd, path).value;
      GraphMirrors();
      BaseIsParent(tree, cwd, path);
      assert x == Home(x.file);
      SiteGraph().LoadAtHome(ImportGraph(), x.file, []);
      ImportGraph().LoadAll(x.file);
      forall q | q in ImportGraph().Reach(x.file)
        ensures var modules := ImportGraph().Load(x.file, []).modules; q in modules <==> Settled(q, modules)
      {
        ProjectSettles(x.file, q);
      }
    }

    /** Whether the path of an import leads, from the folder of the file, to one of the modules. */
    predicate Found(p: Place, i: nat, modules: seq<Place>)
      requires p in tree && tree[p].File? && i < |tree[p].imports|
    {
      RealPath(tree, Parent(p), tree[p].imports[i]).Some? && RealPath(tree, Parent(p), tree[p].imports[i]).value in modules
    }

    /** A file that parses and whose declarations are sound given which imports are among the modules. */
    predicate Settled(p: Place, modules: seq<Place>) {
      && p in tree && tree[p].File? && tree[p].parses
      && tree[p].sound(seq(|tree[p].imports|, i requires 0 <= i < |tree[p].imports| => Found(p, i, modules)))
    }

    lemma FoundMatches(p: Place, modules: seq<Place>)
      requires p in tree && Home(p) in rank && Parses(p) && forall q <- modules :: IsFile(tree, q)
      ensures ImportGraph().FoundIn(p, modules) == seq(|tree[p].imports|, i requires 0 <= i < |tree[p].imports| => Found(p, i, modules))
    {
      var found := ImportGraph().FoundIn(p, modules);
      forall i | 0 <= i < |tree[p].imports| ensures found[i] == Found(p, i, modules) {
        assert ImportGraph().node[p].imports[i] == Files(Targets(Home(p)))[i];
      }
    }

    lemma ProjectSettles(root: Place, p: Place)
      requires Ok() && ImportGraph().Ok() && root in ImportGraph().node && p in ImportGraph().Reach(root)
      ensures var modules := ImportGraph().Load(root, []).modules; p in modules <==> Settled(p, modules)
    {
      var g := ImportGraph();
      var modules := g.Load(root, []).modules;
      g.LoadAll(root);
      g.ModulesSettle(root, p);
      if Parses(p) {
        assert forall q <- modules :: q in g.node && IsFile(tree, q);
        FoundMatches(p, modules);
        assert g.node[p].sound == tree[p].sound;
      }
    }

    /** What an import of a site is on the graph. */
    lemma SiteAt(x: Site, i: nat)
      requires Ok() && x in rank && Parses(x.file) && i < |tree[x.file].imports|
      ensures SiteGraph().Parses(x) && |SiteGraph().node[x].imports| == |tree[x.file].imports|
      ensures SiteGraph().node[x].imports[i] == Target(x.base, tree[x.file].imports[i])
      ensures Target(x.base, tree[x.file].imports[i]).Some? ==>
        var y := Target(x.base, tree[x.file].imports[i]).value; y in rank && rank[y] < rank[x]
    {
      var imports := SiteGraph().node[x].imports;
      assert imports[i] == Target(x.base, tree[x.file].imports[i]) && imports[i] in imports;
    }

    lemma GraphMirrors()
      requires Ok() && WellNamed()
      ensures SiteGraph().Mirrors(ImportGraph())
    {
      var g := ImportGraph();
      forall p, k | p in g.node && Parses(p) && 0 <= k < |tree[p].imports|
        ensures Targets(Home(p))[k] == SiteGraph().AtHome(g.node[p].imports[k])
        ensures g.node[p].imports[k].Some? ==> g.node[p].imports[k].value in g.node && g.rank[g.node[p].imports[k].value] < g.rank[p]
      {
        if Target(Parent(p), tree[p].imports[k]).Some? {
          TargetAtHome(p, k);
        }
      }
    }
  }

  // ---------- loading, with a working directory ----------

  class Project {
    const sources: Sources
    var modules: seq<Place>
    var cwd: Place

    constructor (sources: Sources, cwd: Place)
      ensures this.sources == sources && modules == [] && this.cwd == cwd
    {
      this.sources, this.modules, this.cwd := sources, [], cwd;
    }

    ghost predicate Valid()
      reads this
    {
      sources.Ok() && IsFolder(sources.tree, cwd) && forall p <- modules :: IsFile(sources.tree, p)
    }

    /** The site that a path leads to from here. */
    ghost function SiteOf(path: string): Option<Site>
      reads this
    {
      sources.Target(cwd, path)
    }

    method ChangeDir(dir: string)
      modifies this`cwd
      ensures cwd == ChangedDir(sources.tree, old(cwd), dir)
    {
      var p := RealPath(sources.tree, cwd, dir);
      if p.Some? && IsFolder(sources.tree, p.value) {
        cwd := p.value;
      }
    }

    /** Adds the module at a path and all that it imports, and comes back to where it was. */
    method AddModuleAt(path: string) returns (ok: bool)
      requires Valid() && (SiteOf(path).Some? ==> SiteOf(path).value in sources.rank)
      modifies this
      ensures Valid() && cwd == old(cwd)
      ensures SiteOf(path).None? ==> !ok && modules == old(modules)
      ensures SiteOf(path).Some? ==> var r := sources.SiteGraph().Load(SiteOf(path).value, old(modules)); modules == r.modules && ok == r.ok
      decreases if SiteOf(path).Some? && SiteOf(path).value in sources.rank then 1 + sources.rank[SiteOf(path).value] else 0, 1
    {
      var fullPath := RealPath(sources.tree, cwd, path);
      if fullPath.None? {
        return false;
      }
      var loaded := IsLoaded(fullPath.value);
      if loaded {
        return true;
      }
      ok := LoadFile(fullPath.value, path);
    }

    method IsLoaded(p: Place) returns (yes: bool)
      ensures yes <==> p in modules
    {
      for i := 0 to |modules|
        invariant p !in modules[..i]
      {
        if modules[i] == p {
          return true;
        }
      }
      return false;
    }

    /** A place that is not loaded yet. */
    method LoadFile(p: Place, path: string) returns (ok: bool)
      requires Valid() && (SiteOf(path).Some? ==> SiteOf(path).value in sources.rank)
      requires RealPath(sources.tree, cwd, path) == Some(p) && p !in modules
      modifies this
      ensures Valid() && cwd == old(cwd)
      ensures SiteOf(path).None? ==> !ok && modules == old(modules)
      ensures SiteOf(path).Some? ==> var r := sources.SiteGraph().Load(SiteOf(path).value, old(modules)); modules == r.modules && ok == r.ok
      decreases if SiteOf(path).Some? && SiteOf(path).value in sources.rank then 1 + sources.rank[SiteOf(path).value] else 0, 0
    {
      ghost var site := SiteOf(path);
      var before := cwd;
      var dir, _ := SplitFilenameDir(path);
      if dir.Some? {
        ChangeDir(dir.value);
      }
      if !sources.Parses(p) {
        cwd := before;
        return false;
      }
      assert site == Some(Site(p, cwd));
      var found := ReadImports(p);
      cwd := before;
      if !sources.tree[p].sound(found) {
        return false;
      }
      modules := modules + [p];
      return true;
    }

    /** The imports of a file, from within the folder that was changed to. */
    method ReadImports(p: Place) returns (found: seq<bool>)
      requires Valid() && sources.Parses(p) && Site(p, cwd) in sources.rank
      modifies this
      ensures Valid() && cwd == old(cwd)
      ensures var r := sources.SiteGraph().LoadImports(Site(p, cwd), 0, old(modules)); modules == r.modules && found == r.found
      decreases sources.rank[Site(p, cwd)], 2
    {
      found := [];
      var imports := sources.tree[p].imports;
      ghost var x, g := Site(p, cwd), sources.SiteGraph();
      ghost var all := g.LoadImports(x, 0, modules);
      for i := 0 to |imports|
        invariant Valid() && cwd == old(cwd)
        invariant WithFound(found, g.LoadImports(x, i, modules)) == WithFound([], all)
      {
        sources.SiteAt(x, i);
        WithFoundTurn(g, x, i, modules, found);
        var ok := AddModuleAt(imports[i]);
        found := found + [ok];
      }
      assert found + [] == found && [] + all.found == all.found;
    }

    /** The whole of a new project: each module once, exactly the sound ones that the first file reaches,
        each after all that it needs. */
    method LoadProject(path: string) returns (ok: bool)
      requires Valid() && modules == [] && sources.WellNamed() && !(NamedInRoot(path) && cwd != [])
      requires SiteOf(path).Some? ==> SiteOf(path).value in sources.rank
      modifies this
      ensures cwd == old(cwd) && sources.ImportGraph().Ok() && sources.ImportGraph().InOrder(modules)
      ensures SiteOf(path).None? ==> !ok && modules == []
      ensures SiteOf(path).Some? ==>
        var root, g := SiteOf(path).value.file, sources.ImportGraph();
        && root in g.node && (ok <==> g.Loadable(root))
        && (forall q :: q in modules <==> q in g.Reach(root) && g.Loadable(q))
        && (ok ==> modules != [] && modules[|modules| - 1] == root)
        && (forall q <- g.Reach(root) :: q in modules <==> sources.Settled(q, modules))
    {
      sources.GraphMirrors();
      if SiteOf(path).Some? {
        sources.LoadedAtHome(cwd, path);
      }
      ok := AddModuleAt(path);
    }
  }

  ghost function WithFound(found: seq<bool>, r: Importing): Importing {
    Importing(r.modules, found + r.found)
  }

  ghost function LoadTarget(g: SiteGraph, x: Site, i: nat, modules: seq<Place>): Loading
    requires g.Ok() && g.Parses(x) && i < |g.node[x].imports|
  {
    var y := g.node[x].imports[i];
    if y.None? then Loading(modules, false) else g.Load(y.value, modules)
  }

  /** One turn of the loop over the imports. */
  lemma WithFoundTurn(g: SiteGraph, x: Site, i: nat, modules: seq<Place>, found: seq<bool>)
    requires g.Ok() && g.Parses(x) && i < |g.node[x].imports|
    ensures var first := LoadTarget(g, x, i, modules);
      WithFound(found, g.LoadImports(x, i, modules)) == WithFound(found + [first.ok], g.LoadImports(x, i + 1, first.modules))
  {
    var first := LoadTarget(g, x, i, modules);
    Associate(found, [first.ok], g.LoadImports(x, i + 1, first.modules).found);
  }
}
