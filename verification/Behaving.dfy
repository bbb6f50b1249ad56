/** Building a behaviour table for a type and walking it, as the compiler does it: replacing Self in
    the types in place. */
module Behaving {
  import opened Options
  import opened Types
  import opened Decls
  import opened Behaviours
  import opened BehaviourTable
  import Conformance

  /** The walk replaces Self, too, by the generic whose table it is. */
  function AfterWalk(t: Types, path: Path, generic: Ref): (r: Types)
    requires t.Ok() && generic in t.node && Replaceable(t, path, generic)
    ensures r.Ok() && r.node.Keys == t.node.Keys && r.depth == t.depth
    ensures forall x <- t.node :: r.node[x] == t.node[x] || r.node[x] == Generic(Some(generic))
    decreases |path|
  {
    if path == [] then t
    else match path[0]
      case InList(_) => AfterWalk(t, path[1..], generic)
      case InRules(_, self) => AfterWalk(t.(node := t.node[self := Generic(Some(generic))]), path[1..], generic)
  }

  /** Every Self on the path is replaced by that generic, and nothing else is. */
  lemma {:induction false} WalkReplaces(t: Types, path: Path, generic: Ref, x: Ref)
    requires t.Ok() && generic in t.node && Replaceable(t, path, generic) && x in t.node
    ensures AfterWalk(t, path, generic).node[x] ==
            if exists e <- path :: e.InRules? && e.self == x then Generic(Some(generic)) else t.node[x]
    decreases |path|
  {
    if path != [] {
      var t' := if path[0].InRules? then t.(node := t.node[path[0].self := Generic(Some(generic))]) else t;
      WalkReplaces(t', path[1..], generic, x);
      assert forall e <- path :: e == path[0] || e in path[1..];
      assert forall e <- path[1..] :: e in path;
      assert path[0] in path;
    }
  }

  predicate Replaceable(t: Types, path: Path, generic: Ref) {
    generic in t.depth && forall e <- path :: e.InRules? ==> e.self in t.node && e.self in t.depth && t.depth[generic] < t.depth[e.self]
  }

  ghost function WithEarlier(fs: seq<Decl>, m: Met): Met {
    Met(m.filled, if m.functions.Some? then Some(fs + m.functions.value) else None)
  }

  lemma WithEarlierTwice(fs: seq<Decl>, gs: seq<Decl>, m: Met)
    ensures WithEarlier(fs, WithEarlier(gs, m)) == WithEarlier(fs + gs, m)
    ensures WithEarlier([], m) == m && WithEarlier(fs, Met(m.filled, Some([]))) == Met(m.filled, Some(fs))
  {
    if m.functions.Some? {
      assert fs + (gs + m.functions.value) == fs + gs + m.functions.value;
      assert [] + m.functions.value == m.functions.value;
    }
    assert fs + [] == fs;
  }

  /** One turn of the loop over the rules. */
  lemma WithEarlierTurn(fs: seq<Decl>, ask: Ask, b: Behaviour, i: nat, filled: set<Ref>)
    requires b.OfRules? && i < |b.rules|
    ensures var all := WithEarlier(fs, MeetRules(ask, b, i, filled));
      match ask(b.rules[i], b.self, filled)
      case Missing => all == Met(filled, None)
      case Wrong => all == Met(filled + {b.self}, None)
      case Right(f) => all == WithEarlier(fs + [f], MeetRules(ask, b, i + 1, filled + {b.self}))
  {
    var turn := ask(b.rules[i], b.self, filled);
    if turn.Right? {
      WithEarlierTwice(fs, [turn.function_], MeetRules(ask, b, i + 1, filled + {b.self}));
    }
  }

  ghost function WithTables(tables: seq<Table>, failed: bool, l: BuiltList): BuiltList {
    BuiltList(l.filled, tables + l.tables, failed || l.failed)
  }

  lemma WithTablesTurn(tables: seq<Table>, failed: bool, ask: Ask, ty: Ref, b: Behaviour, i: nat, filled: set<Ref>)
    requires b.OfList? && i < |b.list|
    ensures var first := Build(ask, ty, b.list[i], filled);
      WithTables(tables, failed, BuildList(ask, ty, b, i, filled))
      == WithTables(tables + [first.table], failed || first.failed, BuildList(ask, ty, b, i + 1, first.filled))
  {
    var first := Build(ask, ty, b.list[i], filled);
    var rest := BuildList(ask, ty, b, i + 1, first.filled);
    assert tables + ([first.table] + rest.tables) == tables + [first.table] + rest.tables;
  }

  class Behaving {
    var types: Types
    var decls: ModuleDecls
    var failed: bool

    constructor (types: Types, decls: ModuleDecls)
      ensures this.types == types && this.decls == decls && !failed
    {
      this.types, this.decls, this.failed := types, decls, false;
    }

    /** The types are those of the setting with some Selfs replaced. */
    ghost predicate At(s: Setting, filled: set<Ref>)
      reads this, decls
    {
      filled <= s.selfs && types == s.Now(filled) && decls.privateDecls == s.decls
    }

    /** One rule: the function is looked up, Self is replaced, the types are
        compared. */
    method Meet(ty: Ref, rule: Rule, self: Ref, ghost s: Setting, ghost filled: set<Ref>) returns (t: Turn)
      requires ty == s.ty && At(s, filled) && filled + {self} <= s.selfs && rule.ty in s.before.node
      modifies this`types, this`failed
      ensures t == s.Ask(rule, self, filled) && failed == (old(failed) || !t.Right?)
      ensures At(s, if t.Missing? then filled else filled + {self})
    {
      var found := decls.ResolveInType(types, Some(ty), rule.name);
      if found.None? {
        failed := true;
        return Missing;
      }
      ReplaceSelf(self, ty, s, filled);
      var same := Equals(types, found.value.ty, rule.ty);
      failed := failed || !same;
      t := if same then Right(found.value) else Wrong;
    }

    method ReplaceSelf(self: Ref, ty: Ref, ghost s: Setting, ghost filled: set<Ref>)
      requires ty == s.ty && At(s, filled) && filled + {self} <= s.selfs
      modifies this`types
      ensures At(s, filled + {self})
    {
      types := types.(node := types.node[self := Generic(Some(ty))]);
      assert types.node == s.Now(filled + {self}).node;
    }

    method BehavesAsDecl(ty: Ref, b: Behaviour, ghost s: Setting, ghost filled: set<Ref>) returns (functions: Option<seq<Decl>>)
      requires b.OfRules? && s.Suits(b) && ty == s.ty && At(s, filled)
      modifies this`types, this`failed
      ensures var m := MeetRules(s.Ask, b, 0, filled);
        functions == m.functions && At(s, m.filled) && failed == (old(failed) || m.functions.None?)
    {
      var elements: seq<Decl> := [];
      ghost var now, all := filled, MeetRules(s.Ask, b, 0, filled);
      WithEarlierTwice([], [], all);
      for i := 0 to |b.rules|
        invariant At(s, now) && failed == old(failed)
        invariant WithEarlier(elements, MeetRules(s.Ask, b, i, now)) == all
      {
        var met := MeetNext(ty, b, i, elements, s, now);
        if met.None? {
          return None;
        }
        elements, now := met.value, now + {b.self};
      }
      WithEarlierTwice(elements, [], Met(now, Some([])));
      return Some(elements);
    }

    /** One turn of the loop over the rules. */
    method MeetNext(ty: Ref, b: Behaviour, i: nat, elements: seq<Decl>, ghost s: Setting, ghost filled: set<Ref>)
      returns (met: Option<seq<Decl>>)
      requires b.OfRules? && i < |b.rules| && s.Suits(b) && ty == s.ty && At(s, filled)
      modifies this`types, this`failed
      ensures failed == (old(failed) || met.None?)
      ensures var all := WithEarlier(elements, MeetRules(s.Ask, b, i, filled));
        if met.None? then all.functions == None && At(s, all.filled)
        else At(s, filled + {b.self}) && all == WithEarlier(met.value, MeetRules(s.Ask, b, i + 1, filled + {b.self}))
    {
      WithEarlierTurn(elements, s.Ask, b, i, filled);
      var turn := Meet(ty, b.rules[i], b.self, s, filled);
      met := if turn.Right? then Some(elements + [turn.function_]) else None;
    }

    method BuildTable(ty: Ref, behaviour: Option<Behaviour>, ghost s: Setting, ghost filled: set<Ref>) returns (table: Table)
      requires behaviour.Some? ==> s.Suits(behaviour.value) && ty == s.ty && At(s, filled)
      modifies this`types, this`failed
      ensures behaviour.None? ==> table == Bare(ty) && types == old(types) && failed == old(failed)
      ensures behaviour.Some? ==>
        var r := Build(s.Ask, ty, behaviour.value, filled);
        table == r.table && At(s, r.filled) && failed == (old(failed) || r.failed)
      ensures behaviour.Some? && Separate(s, behaviour.value) ==>
        failed == (old(failed) || !Conformance.Conforms(s, behaviour.value))
    {
      if behaviour.None? {
        return Bare(ty);
      }
      if Separate(s, behaviour.value) {
        Conformance.BuildExact(s, behaviour.value, filled);
      }
      table := BuildFor(ty, behaviour.value, s, filled);
    }

    method BuildFor(ty: Ref, b: Behaviour, ghost s: Setting, ghost filled: set<Ref>) returns (table: Table)
      requires s.Suits(b) && ty == s.ty && At(s, filled)
      modifies this`types, this`failed
      ensures var r := Build(s.Ask, ty, b, filled);
        table == r.table && At(s, r.filled) && failed == (old(failed) || r.failed)
      decreases b, 1
    {
      if b.OfRules? {
        var functions := BehavesAsDecl(ty, b, s, filled);
        return Functions(ty, functions);
      }
      var tables := BuildListFor(ty, b, s, filled);
      return Tables(ty, tables);
    }

    method BuildListFor(ty: Ref, b: Behaviour, ghost s: Setting, ghost filled: set<Ref>) returns (tables: seq<Table>)
      requires b.OfList? && s.Suits(b) && ty == s.ty && At(s, filled)
      modifies this`types, this`failed
      ensures var l := BuildList(s.Ask, ty, b, 0, filled);
        tables == l.tables && At(s, l.filled) && failed == (old(failed) || l.failed)
      decreases b, 0
    {
      tables := [];
      ghost var now, ask := filled, s.Ask;
      ghost var all := BuildList(ask, ty, b, 0, filled);
      for i := 0 to |b.list|
        invariant At(s, now)
        invariant WithTables(tables, failed, BuildList(ask, ty, b, i, now)) == WithTables([], old(failed), all)
      {
        assert s.Suits(b.list[i]) by { assert Selfs(b.list[i]) <= Selfs(b); }
        WithTablesTurn(tables, failed, ask, ty, b, i, now);
        var table := BuildFor(ty, b.list[i], s, now);
        tables, now := tables + [table], Build(ask, ty, b.list[i], now).filled;
      }
      assert tables + [] == tables && [] + all.tables == all.tables;
    }

    /** A kind that differs is an assertion that fails in the compiler. */
    method WalkPath(root: Table, path: Path, generic: Ref, handle: Option<Decl>) returns (w: Walked)
      requires types.Ok() && generic in types.node && Replaceable(types, path, generic)
      modifies this`types
      ensures w == Walk(root, path, handle)
      ensures w.At? ==> types == AfterWalk(old(types), path, generic)
    {
      var value, table := handle, root;
      for i := 0 to |path|
        invariant types.Ok() && generic in types.node
        invariant Walk(root, path, handle) == Walk(table, path[i..], value)
        invariant Replaceable(types, path[i..], generic)
        invariant AfterWalk(old(types), path, generic) == AfterWalk(types, path[i..], generic)
      {
        assert path[i..][1..] == path[i + 1..];
        match path[i] {
          case InRules(idx, self) =>
            if !table.Functions? || table.functions.None? || idx >= |table.functions.value| {
              return Crash;
            }
            value := Some(table.functions.value[idx]);
            types := types.(node := types.node[self := Generic(Some(generic))]);
          case InList(idx) =>
            if !table.Tables? || idx >= |table.list| {
              return Crash;
            }
            table := table.list[idx];
        }
      }
      return Walked.At(value);
    }
  }
}
