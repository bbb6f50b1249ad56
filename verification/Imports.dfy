/** Loading a module and, before it, everything that it imports, on the graph of imports. */
module Imports {
  import opened Options
  import opened Paths

  datatype Loading = Loading(modules: seq<Place>, ok: bool)
  datatype Importing = Importing(modules: seq<Place>, found: seq<bool>)

  /** A file that does not parse, or one with what each import names, if anything; `sound` as for files. */
  datatype Node<K> = Broken | Parsed(imports: seq<Option<K>>, sound: seq<bool> -> bool)

  /** Imports do not run in circles: `rank` goes down along every one of them. */
  datatype Graph = Graph(node: map<Place, Node<Place>>, rank: map<Place, nat>)
  {
    predicate Parses(p: Place) {
      p in node && node[p].Parsed?
    }

    ghost predicate Ok() {
      && rank.Keys == node.Keys
      && forall p <- node :: node[p].Parsed? ==> forall q <- node[p].imports :: q.Some? ==> q.value in node && rank[q.value] < rank[p]
    }

    // ---------- loading, as a function ----------

    function Load(p: Place, modules: seq<Place>): (r: Loading)
      requires Ok() && p in node
      decreases rank[p], 1, 0
    {
      if p in modules then Loading(modules, true)
      else if !Parses(p) then Loading(modules, false)
      else
        var r := LoadImports(p, 0, modules);
        if node[p].sound(r.found) then Loading(r.modules + [p], true) else Loading(r.modules, false)
    }

    /** The imports from the `k`-th on. One that fails does not stop the others. */
    function LoadImports(p: Place, k: nat, modules: seq<Place>): (r: Importing)
      requires Ok() && Parses(p) && k <= |node[p].imports|
      decreases rank[p], 0, |node[p].imports| - k
    {
      if k == |node[p].imports| then Importing(modules, [])
      else
        var first := if node[p].imports[k].None? then Loading(modules, false) else Load(node[p].imports[k].value, modules);
        var rest := LoadImports(p, k + 1, first.modules);
        Importing(rest.modules, [first.ok] + rest.found)
    }

    // ---------- what ought to be loaded ----------

    predicate Loadable(p: Place)
      requires Ok() && p in node
      decreases rank[p], 1, 0
    {
      Parses(p) && node[p].sound(FoundFrom(p, 0))
    }

    function FoundFrom(p: Place, k: nat): seq<bool>
      requires Ok() && Parses(p) && k <= |node[p].imports|
      decreases rank[p], 0, |node[p].imports| - k
    {
      if k == |node[p].imports| then []
      else [node[p].imports[k].Some? && Loadable(node[p].imports[k].value)] + FoundFrom(p, k + 1)
    }

    /** The file and all that it imports, directly or not. */
    function Reach(p: Place): (r: set<Place>)
      requires Ok() && p in node
      ensures forall q <- r :: q in node && rank[q] <= rank[p]
      decreases rank[p], 1, 0
    {
      {p} + if Parses(p) then ReachFrom(p, 0) else {}
    }

    function ReachFrom(p: Place, k: nat): (r: set<Place>)
      requires Ok() && Parses(p) && k <= |node[p].imports|
      ensures forall q <- r :: q in node && rank[q] < rank[p]
      decreases rank[p], 0, |node[p].imports| - k
    {
      if k == |node[p].imports| then {}
      else (if node[p].imports[k].Some? then Reach(node[p].imports[k].value) else {}) + ReachFrom(p, k + 1)
    }

    ghost predicate Needs(p: Place, q: Place)
      requires Ok()
    {
      q in node && Parses(p) && q in ReachFrom(p, 0) && Loadable(q)
    }

    /** A list of modules in order: each once, each sound, each after all that it needs. */
    ghost predicate InOrder(modules: seq<Place>)
      requires Ok()
    {
      && (forall i :: 0 <= i < |modules| ==> modules[i] in node && Loadable(modules[i]))
      && (forall i, j :: 0 <= i < j < |modules| ==> modules[i] != modules[j])
      && (forall i, q :: 0 <= i < |modules| && Needs(modules[i], q) ==> q in modules[..i])
    }

    // ---------- loading does that ----------

    /** From `before` to `after`, in order, came the sound ones of `wanted` that were not there. */
    ghost predicate Extends(before: seq<Place>, after: seq<Place>, wanted: set<Place>)
      requires Ok() && wanted <= node.Keys
    {
      && InOrder(after) && before <= after
      && (forall q <- before :: q in after)
      && (forall q <- wanted :: Loadable(q) ==> q in after)
      && (forall q <- after :: q in before || (q in wanted && Loadable(q)))
    }

    lemma ExtendsTwice(a: seq<Place>, b: seq<Place>, c: seq<Place>, v: set<Place>, w: set<Place>)
      requires Ok() && v <= node.Keys && w <= node.Keys && Extends(a, b, v) && Extends(b, c, w)
      ensures Extends(a, c, v + w)
    {
    }

    lemma {:induction false} LoadMeets(p: Place, modules: seq<Place>)
      requires Ok() && p in node && InOrder(modules)
      ensures Load(p, modules).ok <==> Loadable(p)
      ensures Extends(modules, Load(p, modules).modules, Reach(p))
      decreases rank[p], 1, 0
    {
      if p in modules {
        var i :| 0 <= i < |modules| && modules[i] == p;
        forall q | q in Reach(p) && Loadable(q) ensures q in modules {
          if q != p {
            assert Needs(modules[i], q);
          }
        }
      } else if Parses(p) {
        LoadImportsMeets(p, 0, modules);
        if Loadable(p) {
          OneMore(p, LoadImports(p, 0, modules).modules);
        }
      }
    }

    lemma OneMore(p: Place, modules: seq<Place>)
      requires Ok() && p in node && InOrder(modules) && Loadable(p) && p !in modules
      requires forall q :: Needs(p, q) ==> q in modules
      ensures InOrder(modules + [p])
    {
      var all := modules + [p];
      forall i, q | 0 <= i < |all| && Needs(all[i], q) ensures q in all[..i] {
        if i < |modules| {
          assert all[..i] == modules[..i];
        } else {
          assert all[..i] == modules;
        }
      }
    }

    lemma {:induction false} LoadImportsMeets(p: Place, k: nat, modules: seq<Place>)
      requires Ok() && Parses(p) && k <= |node[p].imports| && InOrder(modules)
      ensures LoadImports(p, k, modules).found == FoundFrom(p, k)
      ensures Extends(modules, LoadImports(p, k, modules).modules, ReachFrom(p, k))
      decreases rank[p], 0, |node[p].imports| - k
    {
      if k < |node[p].imports| {
        var first, wanted := TargetMeets(p, k, modules);
        LoadImportsMeets(p, k + 1, first.modules);
        var rest := LoadImports(p, k + 1, first.modules).modules;
        ExtendsTwice(modules, first.modules, rest, wanted, ReachFrom(p, k + 1));
        assert LoadImports(p, k, modules).modules == rest;
        assert ReachFrom(p, k) == wanted + ReachFrom(p, k + 1);
      }
    }

    lemma {:induction false} TargetMeets(p: Place, k: nat, modules: seq<Place>) returns (first: Loading, wanted: set<Place>)
      requires Ok() && Parses(p) && k < |node[p].imports| && InOrder(modules)
      ensures wanted <= node.Keys && Extends(modules, first.modules, wanted)
      ensures var t := node[p].imports[k];
        && first == (if t.None? then Loading(modules, false) else Load(t.value, modules))
        && first.ok == (t.Some? && Loadable(t.value)) && wanted == if t.None? then {} else Reach(t.value)
      decreases rank[p], 0, 0
    {
      var t := node[p].imports[k];
      if t.None? {
        return Loading(modules, false), {};
      }
      LoadMeets(t.value, modules);
      return Load(t.value, modules), Reach(t.value);
    }

    /** From nothing: exactly the sound modules that the root reaches, and the root last. */
    lemma LoadAll(root: Place)
      requires Ok() && root in node
      ensures var r := Load(root, []);
        && InOrder(r.modules) && (r.ok <==> Loadable(root))
        && (forall q :: q in r.modules <==> q in Reach(root) && Loadable(q))
        && (r.ok ==> r.modules != [] && r.modules[|r.modules| - 1] == root)
    {
      LoadMeets(root, []);
      assert Extends([], Load(root, []).modules, Reach(root));
    }

    /** Which imports of a file are among the modules. */
    function FoundIn(p: Place, modules: seq<Place>): seq<bool>
      requires Parses(p)
    {
      seq(|node[p].imports|, k requires 0 <= k < |node[p].imports| => node[p].imports[k].Some? && node[p].imports[k].value in modules)
    }

    lemma {:induction false} FoundAre(p: Place, k: nat, modules: seq<Place>)
      requires Ok() && Parses(p) && k <= |node[p].imports|
      requires forall q <- ReachFrom(p, k) :: q in modules <==> Loadable(q)
      ensures FoundFrom(p, k) == FoundIn(p, modules)[k..]
      decreases |node[p].imports| - k
    {
      if k < |node[p].imports| {
        var t := node[p].imports[k];
        if t.Some? {
          assert t.value in Reach(t.value) && t.value in ReachFrom(p, k);
        }
        FoundAre(p, k + 1, modules);
        assert FoundIn(p, modules)[k..] == [FoundIn(p, modules)[k]] + FoundIn(p, modules)[k + 1..];
      }
    }

    /** What the root reaches: the least set with it that is closed under imports. */
    lemma ReachIsLeast(root: Place, within: set<Place>)
      requires Ok() && root in node
      ensures root in Reach(root)
      ensures forall p <- Reach(root) :: Parses(p) ==> forall t <- node[p].imports :: t.Some? ==> t.value in Reach(root)
      ensures root in within && Closed(within) ==> Reach(root) <= within
    {
      forall p, t | p in Reach(root) && Parses(p) && t in node[p].imports && t.Some? ensures t.value in Reach(root) {
        var k :| 0 <= k < |node[p].imports| && node[p].imports[k] == t;
        ReachesImport(p, 0, k);
        ReachTwice(root, p, t.value);
      }
      if root in within && Closed(within) {
        ReachWithin(root, within);
      }
    }

    ghost predicate Closed(within: set<Place>) {
      forall p <- within :: Parses(p) ==> forall t <- node[p].imports :: t.Some? ==> t.value in within
    }

    lemma {:induction false} ReachWithin(p: Place, within: set<Place>)
      requires Ok() && p in node && p in within && Closed(within)
      ensures Reach(p) <= within
      decreases rank[p], 1, 0
    {
      if Parses(p) {
        ReachFromWithin(p, 0, within);
      }
    }

    lemma {:induction false} ReachFromWithin(p: Place, k: nat, within: set<Place>)
      requires Ok() && Parses(p) && k <= |node[p].imports| && p in within && Closed(within)
      ensures ReachFrom(p, k) <= within
      decreases rank[p], 0, |node[p].imports| - k
    {
      if k < |node[p].imports| {
        var t := node[p].imports[k];
        assert t in node[p].imports;
        if t.Some? {
          ReachWithin(t.value, within);
        }
        ReachFromWithin(p, k + 1, within);
      }
    }

    lemma {:induction false} ReachTwice(p: Place, q: Place, r: Place)
      requires Ok() && p in node && q in Reach(p) && r in Reach(q)
      ensures r in Reach(p)
      decreases rank[p], 1, 0
    {
      if q != p {
        ReachFromTwice(p, 0, q, r);
      }
    }

    lemma {:induction false} ReachFromTwice(p: Place, k: nat, q: Place, r: Place)
      requires Ok() && Parses(p) && k <= |node[p].imports| && q in ReachFrom(p, k) && r in Reach(q)
      ensures r in ReachFrom(p, k)
      decreases rank[p], 0, |node[p].imports| - k
    {
      var t := node[p].imports[k];
      if t.Some? && q in Reach(t.value) {
        ReachTwice(t.value, q, r);
      } else {
        ReachFromTwice(p, k + 1, q, r);
      }
    }

    /** Of what the root reaches, just those files are modules in the end that parse and whose declarations
        are sound given which of their imports are modules. */
    lemma ModulesSettle(root: Place, p: Place)
      requires Ok() && root in node && p in Reach(root)
      ensures var modules := Load(root, []).modules; p in modules <==> Parses(p) && node[p].sound(FoundIn(p, modules))
    {
      var modules := Load(root, []).modules;
      LoadAll(root);
      if Parses(p) {
        forall q | q in ReachFrom(p, 0) ensures q in modules <==> Loadable(q) {
          ReachTwice(root, p, q);
        }
        FoundAre(p, 0, modules);
        assert FoundIn(p, modules)[0..] == FoundIn(p, modules);
      }
    }

    /** Direct imports come before their importer. */
    lemma ImportsFirst(modules: seq<Place>, i: nat, k: nat)
      requires Ok() && InOrder(modules) && i < |modules| && Parses(modules[i]) && k < |node[modules[i]].imports|
      requires node[modules[i]].imports[k].Some? && Loadable(node[modules[i]].imports[k].value)
      ensures node[modules[i]].imports[k].value in modules[..i]
    {
      ReachesImport(modules[i], 0, k);
      assert Needs(modules[i], node[modules[i]].imports[k].value);
    }

    lemma {:induction false} ReachesImport(p: Place, j: nat, k: nat)
      requires Ok() && Parses(p) && j <= k < |node[p].imports| && node[p].imports[k].Some?
      ensures node[p].imports[k].value in ReachFrom(p, j)
      decreases k - j
    {
      if j < k {
        ReachesImport(p, j + 1, k);
      }
    }
  }
}
