/** Loading with the folder in which each file's imports are looked up, which need not be the file's own. */
module Sites {
  import opened Options
  import opened Paths
  import opened Imports

  /** A file, and the folder that the compiler is in while it reads the file's imports. */
  datatype Site = Site(file: Place, base: Place)

  function Home(p: Place): Site {
    Site(p, Parent(p))
  }

  datatype SiteGraph = SiteGraph(node: map<Site, Node<Site>>, rank: map<Site, nat>)
  {
    predicate Parses(x: Site) {
      x in node && node[x].Parsed?
    }

    ghost predicate Ok() {
      && rank.Keys == node.Keys
      && forall x <- node :: node[x].Parsed? ==> forall y <- node[x].imports :: y.Some? ==> y.value in node && rank[y.value] < rank[x]
    }

    /** A file is loaded once, by its place alone, wherever its imports were looked up. */
    function Load(x: Site, modules: seq<Place>): Loading
      requires Ok() && x in node
      decreases rank[x], 1, 0
    {
      if x.file in modules then Loading(modules, true)
      else if !Parses(x) then Loading(modules, false)
      else
        var r := LoadImports(x, 0, modules);
        if node[x].sound(r.found) then Loading(r.modules + [x.file], true) else Loading(r.modules, false)
    }

    function LoadImports(x: Site, k: nat, modules: seq<Place>): Importing
      requires Ok() && Parses(x) && k <= |node[x].imports|
      decreases rank[x], 0, |node[x].imports| - k
    {
      if k == |node[x].imports| then Importing(modules, [])
      else
        var first := if node[x].imports[k].None? then Loading(modules, false) else Load(node[x].imports[k].value, modules);
        var rest := LoadImports(x, k + 1, first.modules);
        Importing(rest.modules, [first.ok] + rest.found)
    }

    // ---------- where every file is at home, this is loading on the graph of imports ----------

    function AtHome(y: Option<Place>): Option<Site> {
      if y.Some? then Some(Home(y.value)) else None
    }

    /** On `g`, a file stands for its site at home. */
    ghost predicate Mirrors(g: Graph) {
      && g.Ok()
      && (forall p <- g.node :: Home(p) in node && (g.Parses(p) <==> Parses(Home(p))))
      && (forall p <- g.node :: g.Parses(p) ==>
            && |g.node[p].imports| == |node[Home(p)].imports| && g.node[p].sound == node[Home(p)].sound
            && forall k :: 0 <= k < |g.node[p].imports| ==> node[Home(p)].imports[k] == AtHome(g.node[p].imports[k]))
    }

    lemma {:induction false} LoadAtHome(g: Graph, p: Place, modules: seq<Place>)
      requires Ok() && Mirrors(g) && p in g.node
      ensures Load(Home(p), modules) == g.Load(p, modules)
      decreases g.rank[p], 1, 0
    {
      if p !in modules && g.Parses(p) {
        LoadImportsAtHome(g, p, 0, modules);
      }
    }

    lemma {:induction false} LoadImportsAtHome(g: Graph, p: Place, k: nat, modules: seq<Place>)
      requires Ok() && Mirrors(g) && g.Parses(p) && k <= |g.node[p].imports|
      ensures LoadImports(Home(p), k, modules) == g.LoadImports(p, k, modules)
      decreases g.rank[p], 0, |g.node[p].imports| - k
    {
      if k < |g.node[p].imports| {
        var q := g.node[p].imports[k];
        assert node[Home(p)].imports[k] == AtHome(q) && q in g.node[p].imports;
        if q.Some? {
          LoadAtHome(g, q.value, modules);
          LoadImportsAtHome(g, p, k + 1, g.Load(q.value, modules).modules);
        } else {
          LoadImportsAtHome(g, p, k + 1, modules);
        }
      }
    }
  }
}
