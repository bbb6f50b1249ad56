/** Behaviour tables: the extension functions by which a type meets a behaviour, and the walk that picks
    one of them by the path that the search made. */
module BehaviourTable {
  import opened Options
  import opened Types
  import opened Decls
  import opened Behaviours

  /** `functions` is missing where a rule could not be met. A parameter without a behaviour has a table
      without entries. */
  datatype Table =
    | Functions(of: Ref, functions: Option<seq<Decl>>)
    | Tables(of: Ref, list: seq<Table>)
    | Bare(of: Ref)

  function Selfs(b: Behaviour): set<Ref> {
    match b
    case OfRules(self, _) => {self}
    case OfList(list) => set i, s | 0 <= i < |list| && s in Selfs(list[i]) :: s
  }

  // ---------- building, as a function ----------

  /** What comes of one rule: no function of its name, one of another type, or the right one. */
  datatype Turn = Missing | Wrong | Right(function_: Decl)

  /** The answer for a rule, its Self, and the Selfs replaced so far. */
  type Ask = (Rule, Ref, set<Ref>) -> Turn

  datatype Met = Met(filled: set<Ref>, functions: Option<seq<Decl>>)

  /** The rules from the `k`-th on, one after the other; the first that is not met ends it. Self is
      replaced as soon as a function is found. */
  function MeetRules(ask: Ask, b: Behaviour, k: nat, filled: set<Ref>): (m: Met)
    requires b.OfRules? && k <= |b.rules|
    ensures filled <= m.filled <= filled + {b.self}
    decreases |b.rules| - k
  {
    if k == |b.rules| then Met(filled, Some([]))
    else
      match ask(b.rules[k], b.self, filled)
      case Missing => Met(filled, None)
      case Wrong => Met(filled + {b.self}, None)
      case Right(f) =>
        var rest := MeetRules(ask, b, k + 1, filled + {b.self});
        Met(rest.filled, if rest.functions.Some? then Some([f] + rest.functions.value) else None)
  }

  datatype Built = Built(filled: set<Ref>, table: Table, failed: bool)
  datatype BuiltList = BuiltList(filled: set<Ref>, tables: seq<Table>, failed: bool)

  function Build(ask: Ask, ty: Ref, b: Behaviour, filled: set<Ref>): (r: Built)
    ensures filled <= r.filled <= filled + Selfs(b)
    decreases b, 1, 0
  {
    match b
    case OfRules(_, _) =>
      var m := MeetRules(ask, b, 0, filled);
      Built(m.filled, Functions(ty, m.functions), m.functions.None?)
    case OfList(_) =>
      var l := BuildList(ask, ty, b, 0, filled);
      Built(l.filled, Tables(ty, l.tables), l.failed)
  }

  function BuildList(ask: Ask, ty: Ref, b: Behaviour, k: nat, filled: set<Ref>): (r: BuiltList)
    requires b.OfList? && k <= |b.list|
    ensures filled <= r.filled <= filled + Selfs(b)
    decreases b, 0, |b.list| - k
  {
    if k == |b.list| then BuiltList(filled, [], false)
    else
      assert Selfs(b.list[k]) <= Selfs(b);
      var first := Build(ask, ty, b.list[k], filled);
      var rest := BuildList(ask, ty, b, k + 1, first.filled);
      BuiltList(rest.filled, [first.table] + rest.tables, first.failed || rest.failed)
  }

  ghost predicate RulesKnown(t: Types, b: Behaviour) {
    match b
    case OfRules(_, rules) => forall r <- rules :: r.ty in t.node
    case OfList(list) => forall i :: 0 <= i < |list| ==> RulesKnown(t, list[i])
  }

  /** A type that is to meet a behaviour: the types before, the declarations in sight, the type, and
      the generics that stand for Self. All that building does to types is to replace some of those. */
  datatype Premises = Premises(before: Types, decls: seq<Decl>, ty: Ref, selfs: set<Ref>)
  {
    /** No type comes to contain itself when `ty` replaces a Self. */
    ghost predicate Valid() {
      && before.Ok() && Known(before, decls) && ty in before.node
      && (forall d <- decls :: d.ty in before.node)
      && (forall s <- selfs :: s in before.node && before.node[s].Generic? && before.depth[ty] < before.depth[s])
    }

    function Now(filled: set<Ref>): (t: Types)
      requires Valid() && filled <= selfs
      ensures t.Ok() && t.node.Keys == before.node.Keys && Known(t, decls)
    {
      before.(node := map x | x in before.node :: if x in filled then Generic(Some(ty)) else before.node[x])
    }

    function Lookup(filled: set<Ref>, name: string): (d: Option<Decl>)
      requires Valid() && filled <= selfs
      ensures d.Some? ==> d.value in decls && d.value.name == name && d.value.inType.Some?
    {
      Find(Now(filled), decls, Some(ty), name)
    }

    function SameType(filled: set<Ref>, d: Decl, rule: Rule): bool
      requires Valid() && filled <= selfs && d in decls && rule.ty in before.node
    {
      Equals(Now(filled), d.ty, rule.ty)
    }

    /** The lookup is made with the types as they are, the comparison once Self is replaced. */
    function Ask(rule: Rule, self: Ref, filled: set<Ref>): (t: Turn)
      requires Valid()
      ensures t.Right? ==> filled + {self} <= selfs && rule.ty in before.node && t.function_ in decls && t.function_.name == rule.name
    {
      if !(filled + {self} <= selfs && rule.ty in before.node) then Missing
      else
        var found := Lookup(filled, rule.name);
        if found.None? then Missing
        else if SameType(filled + {self}, found.value, rule) then Right(found.value)
        else Wrong
    }

    ghost predicate Suits(b: Behaviour) {
      RulesKnown(before, b) && Selfs(b) <= selfs
    }
  }

  type Setting = p: Premises | p.Valid()
    ghost witness Premises(Types(map[0 := Prim(Void)], map[0 := 0]), [], 0, {})

  // ---------- the walk ----------

  datatype Walked = Crash | At(value: Option<Decl>)

  /** Crashes where the kinds differ or an entry is missing. */
  function Walk(table: Table, path: Path, value: Option<Decl>): Walked {
    if path == [] then At(value)
    else match (path[0], table)
      case (InRules(i, _), Functions(_, Some(fs))) => if i < |fs| then Walk(table, path[1..], Some(fs[i])) else Crash
      case (InList(i), Tables(_, list)) => if i < |list| then Walk(list[i], path[1..], value) else Crash
      case _ => Crash
  }

  // ---------- the two agree ----------

  /** The rules that a path leads into, the Selfs replaced when their table was made, and the entry
      of the table that the path leads to. */
  lemma {:induction false} Leaf(ask: Ask, ty: Ref, b: Behaviour, filled: set<Ref>, path: Path, value: Option<Decl>)
    returns (leaf: Behaviour, before: set<Ref>, i: nat)
    requires Follow(b, path).Some? && !Build(ask, ty, b, filled).failed
    ensures leaf.OfRules? && i < |leaf.rules| && Nested(leaf, b)
    ensures path[|path| - 1] == InRules(i, leaf.self) && Follow(b, path) == Some(leaf.rules[i])
    ensures filled <= before && MeetRules(ask, leaf, 0, before).filled <= Build(ask, ty, b, filled).filled
    ensures var fs := MeetRules(ask, leaf, 0, before).functions;
      fs.Some? && Walk(Build(ask, ty, b, filled).table, path, value) == if i < |fs.value| then At(Some(fs.value[i])) else Crash
    decreases |path|
  {
    if path[0].InRules? {
      return b, filled, path[0].idx;
    }
    var at := BuiltAt(ask, ty, b, 0, path[0].idx, filled);
    leaf, before, i := Leaf(ask, ty, b.list[path[0].idx], at, path[1..], value);
  }

  /** `leaf` is `b` or nested in it. */
  predicate Nested(leaf: Behaviour, b: Behaviour) {
    leaf == b || (b.OfList? && exists i :: 0 <= i < |b.list| && Nested(leaf, b.list[i]))
  }

  /** The table of the `i`-th of a list was built on its own, part way. */
  lemma {:induction false} BuiltAt(ask: Ask, ty: Ref, b: Behaviour, k: nat, i: nat, filled: set<Ref>) returns (before: set<Ref>)
    requires b.OfList? && k <= i < |b.list| && !BuildList(ask, ty, b, k, filled).failed
    ensures filled <= before
    ensures var l, r := BuildList(ask, ty, b, k, filled), Build(ask, ty, b.list[i], before);
      i - k < |l.tables| && l.tables[i - k] == r.table && !r.failed && r.filled <= l.filled
    decreases i - k
  {
    if k == i {
      return filled;
    }
    before := BuiltAt(ask, ty, b, k + 1, i, Build(ask, ty, b.list[k], filled).filled);
  }

  /** Each entry of a complete table was found for its rule, with some Selfs replaced. */
  lemma {:induction false} MetAt(ask: Ask, b: Behaviour, k: nat, i: nat, filled: set<Ref>) returns (before: set<Ref>)
    requires b.OfRules? && k <= i < |b.rules| && MeetRules(ask, b, k, filled).functions.Some?
    ensures var m := MeetRules(ask, b, k, filled);
      && filled <= before && before + {b.self} <= m.filled && i - k < |m.functions.value|
      && ask(b.rules[i], b.self, before) == Right(m.functions.value[i - k])
    decreases i - k
  {
    if k == i {
      return filled;
    }
    before := MetAt(ask, b, k + 1, i, filled + {b.self});
  }

  /** Whatever name resolves, the path found leads through the table, if that was built without an
      error, to what was found for the first rule of that name. */
  lemma PathFitsTable(ask: Ask, ty: Ref, b: Behaviour, filled: set<Ref>, name: string, value: Option<Decl>)
    returns (leaf: Behaviour, before: set<Ref>, i: nat, f: Decl)
    requires Search(b, name).Some? && !Build(ask, ty, b, filled).failed
    ensures leaf.OfRules? && i < |leaf.rules| && Nested(leaf, b) && leaf.rules[i].name == name
    ensures var hit := Search(b, name).value;
      hit.path != [] && hit.path[|hit.path| - 1] == InRules(i, leaf.self) && hit.rule == leaf.rules[i]
    ensures var r := Build(ask, ty, b, filled);
      && filled <= before && before + {leaf.self} <= r.filled && ask(leaf.rules[i], leaf.self, before) == Right(f)
      && Walk(r.table, Search(b, name).value.path, value) == At(Some(f))
  {
    var hit := Search(b, name).value;
    SearchFinds(b, name);
    var start;
    leaf, start, i := Leaf(ask, ty, b, filled, hit.path, value);
    before := MetAt(ask, leaf, 0, i, start);
    f := MeetRules(ask, leaf, 0, start).functions.value[i];
  }

  // ---------- and its type is the rule's, with Self replaced ----------

  ghost predicate Untouched(t: Types, t': Types, r: Ref)
    requires t.Ok() && r in t.node
    decreases t.depth[r]
  {
    r in t'.node && t'.node[r] == t.node[r] && forall p <- Parts(t.node[r]) :: Untouched(t, t', p)
  }

  /** Equality looks at nothing but what the two types are made of. */
  lemma {:induction false} UntouchedEquals(t: Types, t': Types, a: Ref, b: Ref)
    requires t.Ok() && t'.Ok() && a in t.node && b in t.node && Untouched(t, t', a) && Untouched(t, t', b)
    ensures Equals(t', a, b) == Equals(t, a, b)
    decreases t.depth[a] + t.depth[b]
  {
    var m, n := t.node[a], t.node[b];
    if a == b || t.Open(a) || t.Open(b) {
    } else if m.Generic? {
      UntouchedEquals(t, t', m.replace.value, if n.Generic? then n.replace.value else b);
    } else if n.Generic? {
      UntouchedEquals(t, t', n.replace.value, a);
    } else if m.Struct? && n.Struct? && |m.members| == |n.members| {
      forall i | 0 <= i < |m.members|
        ensures m.members[i].ty in t.node && n.members[i].ty in t.node
        ensures Equals(t', m.members[i].ty, n.members[i].ty) == Equals(t, m.members[i].ty, n.members[i].ty)
      {
        assert m.members[i].ty in Parts(m) && n.members[i].ty in Parts(n);
        UntouchedEquals(t, t', m.members[i].ty, n.members[i].ty);
      }
    } else if m.Func? && n.Func? && |m.args| == |n.args| {
      UntouchedEquals(t, t', m.returning, n.returning);
      forall i | 0 <= i < |m.args|
        ensures m.args[i] in t.node && n.args[i] in t.node
        ensures Equals(t', m.args[i], n.args[i]) == Equals(t, m.args[i], n.args[i])
      {
        assert m.args[i] in Parts(m) && n.args[i] in Parts(n);
        UntouchedEquals(t, t', m.args[i], n.args[i]);
      }
    } else if !m.Prim? && !m.Struct? && !m.Func? && !n.Prim? && !n.Struct? && !n.Func? {
      UntouchedEquals(t, t', m.of, n.of);
    }
  }

  /** No generic of `gs` can be reached, but for those of `own`. */
  ghost predicate Apart(t: Types, r: Ref, gs: set<Ref>, own: set<Ref>)
    requires t.Ok() && r in t.node
    decreases t.depth[r]
  {
    r in own || (r !in gs && forall p <- Parts(t.node[r]) :: Apart(t, p, gs, own))
  }

  /** Such a type stays as it is while further Selfs are filled. */
  lemma {:induction false} ApartUntouched(s: Setting, r: Ref, own: set<Ref>, some: set<Ref>, more: set<Ref>)
    requires own <= some <= more <= s.selfs && r in s.before.node
    requires Apart(s.before, r, s.selfs, own) && Apart(s.before, s.ty, s.selfs, {})
    ensures Untouched(s.Now(some), s.Now(more), r)
    decreases own, s.before.depth[r]
  {
    if r in own {
      ApartUntouched(s, s.ty, {}, some, more);
    } else {
      forall p | p in Parts(s.before.node[r]) ensures Untouched(s.Now(some), s.Now(more), p) {
        ApartUntouched(s, p, own, some, more);
      }
    }
  }

  /** Rules speak of no other Self than their own, functions and the type itself of none. */
  ghost predicate Separate(s: Setting, b: Behaviour)
    requires RulesKnown(s.before, b)
  {
    && DeclsApart(s) && RulesApart(s, b)
  }

  ghost predicate DeclsApart(s: Setting)
  {
    && Apart(s.before, s.ty, s.selfs, {})
    && forall d <- s.decls :: Apart(s.before, d.ty, s.selfs, {}) && (d.inType.Some? ==> Apart(s.before, d.inType.value, s.selfs, {}))
  }

  ghost predicate RulesApart(s: Setting, b: Behaviour)
    requires RulesKnown(s.before, b)
  {
    match b
    case OfRules(self, rules) => forall r <- rules :: Apart(s.before, r.ty, s.selfs, {self})
    case OfList(list) => forall i :: 0 <= i < |list| ==> RulesApart(s, list[i])
  }

  /** With these Selfs filled, a function of the type answers a rule. */
  ghost predicate Answers(s: Setting, filled: set<Ref>, last: Element, d: Decl, rule: Rule)
    requires filled <= s.selfs
  {
    && last.InRules? && last.self in filled && d in s.decls && rule.ty in s.before.node && d.name == rule.name
    && d.inType.Some? && Equals(s.Now(filled), d.inType.value, s.ty) && s.SameType(filled, d, rule)
  }

  /** What held when a rule was checked still holds at the end. */
  lemma AnswerStays(s: Setting, rule: Rule, i: nat, self: Ref, filled: set<Ref>, end: set<Ref>)
    requires filled + {self} <= end <= s.selfs && DeclsApart(s)
    requires rule.ty in s.before.node && Apart(s.before, rule.ty, s.selfs, {self})
    requires s.Ask(rule, self, filled).Right?
    ensures Answers(s, end, InRules(i, self), s.Ask(rule, self, filled).function_, rule)
  {
    var d := s.Lookup(filled, rule.name).value;
    var checked := filled + {self};
    ApartUntouched(s, d.inType.value, {}, filled, end);
    ApartUntouched(s, s.ty, {}, filled, end);
    UntouchedEquals(s.Now(filled), s.Now(end), d.inType.value, s.ty);
    ApartUntouched(s, d.ty, {}, checked, end);
    ApartUntouched(s, rule.ty, {self}, checked, end);
    UntouchedEquals(s.Now(checked), s.Now(end), d.ty, rule.ty);
  }

  lemma {:induction false} NestedKeeps(s: Setting, leaf: Behaviour, b: Behaviour)
    requires Nested(leaf, b)
    ensures Selfs(leaf) <= Selfs(b)
    ensures RulesKnown(s.before, b) ==> RulesKnown(s.before, leaf)
    ensures RulesKnown(s.before, b) && RulesApart(s, b) ==> RulesApart(s, leaf)
    decreases b
  {
    if leaf != b {
      var i :| 0 <= i < |b.list| && Nested(leaf, b.list[i]);
      NestedKeeps(s, leaf, b.list[i]);
    }
  }

  /** For a type and its functions: the walk ends at a function of the name asked for, which, once the
      table is complete, belongs to the type and has the type of the rule that was found, with the
      rule's Self replaced. */
  lemma PathAgrees(s: Setting, b: Behaviour, filled: set<Ref>, name: string, value: Option<Decl>) returns (f: Decl)
    requires s.Suits(b) && filled <= s.selfs && Search(b, name).Some? && !Build(s.Ask, s.ty, b, filled).failed
    ensures Walk(Build(s.Ask, s.ty, b, filled).table, Search(b, name).value.path, value) == At(Some(f))
    ensures f in s.decls && f.name == name && Search(b, name).value.path != []
    ensures Build(s.Ask, s.ty, b, filled).filled <= s.selfs
    ensures Separate(s, b) ==>
      var hit := Search(b, name).value;
      Answers(s, Build(s.Ask, s.ty, b, filled).filled, hit.path[|hit.path| - 1], f, hit.rule)
  {
    var leaf, before, i;
    leaf, before, i, f := PathFitsTable(s.Ask, s.ty, b, filled, name, value);
    AskRight(s, leaf.rules[i], leaf.self, before, f);
    NestedKeeps(s, leaf, b);
    if Separate(s, b) {
      AnswerStays(s, leaf.rules[i], i, leaf.self, before, Build(s.Ask, s.ty, b, filled).filled);
    }
  }

  lemma AskRight(s: Setting, rule: Rule, self: Ref, filled: set<Ref>, f: Decl)
    requires s.Ask(rule, self, filled) == Right(f)
    ensures f in s.decls && f.name == rule.name
  {
  }
}
