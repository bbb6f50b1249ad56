/** Behaviours: rules that a type must meet, and finding the rule of a name among nested behaviours. */
module Behaviours {
  import opened Options
  import opened Types

  datatype Rule = Rule(name: string, ty: Ref)

  /** `self` is the generic that stands for the type that behaves so. */
  datatype Behaviour =
    | OfRules(self: Ref, rules: seq<Rule>)
    | OfList(list: seq<Behaviour>)

  datatype Element = InRules(idx: nat, self: Ref) | InList(idx: nat)

  type Path = seq<Element>

  datatype Hit = Hit(path: Path, rule: Rule)

  // ---------- the search, as a function that gives the path from the top ----------

  function FindRule(rules: seq<Rule>, k: nat, name: string): (r: Option<nat>)
    requires k <= |rules|
    ensures r.Some? ==> k <= r.value < |rules| && rules[r.value].name == name
    ensures r.Some? ==> forall i :: k <= i < r.value ==> rules[i].name != name
    ensures r.None? ==> forall i :: k <= i < |rules| ==> rules[i].name != name
    decreases |rules| - k
  {
    if k == |rules| then None
    else if rules[k].name == name then Some(k)
    else FindRule(rules, k + 1, name)
  }

  function Search(b: Behaviour, name: string): Option<Hit>
    decreases b, 1, 0
  {
    match b
    case OfRules(self, rules) =>
      var i := FindRule(rules, 0, name);
      if i.None? then None else Some(Hit([InRules(i.value, self)], rules[i.value]))
    case OfList(_) => SearchList(b, 0, name)
  }

  function SearchList(b: Behaviour, k: nat, name: string): Option<Hit>
    requires b.OfList? && k <= |b.list|
    decreases b, 0, |b.list| - k
  {
    if k == |b.list| then None
    else
      match Search(b.list[k], name)
      case Some(hit) => Some(Hit([InList(k)] + hit.path, hit.rule))
      case None => SearchList(b, k + 1, name)
  }

  // ---------- what the search means ----------

  /** All rules, in the order written. */
  function AllRules(b: Behaviour): seq<Rule>
    decreases b, 1, 0
  {
    match b
    case OfRules(_, rules) => rules
    case OfList(_) => AllFrom(b, 0)
  }

  function AllFrom(b: Behaviour, k: nat): seq<Rule>
    requires b.OfList? && k <= |b.list|
    decreases b, 0, |b.list| - k
  {
    if k == |b.list| then [] else AllRules(b.list[k]) + AllFrom(b, k + 1)
  }

  /** The rule that a path leads to. */
  function Follow(b: Behaviour, path: Path): Option<Rule> {
    if path == [] then None
    else match (path[0], b)
      case (InRules(i, self), OfRules(s, rules)) => if |path| == 1 && i < |rules| && s == self then Some(rules[i]) else None
      case (InList(i), OfList(list)) => if i < |list| then Follow(list[i], path[1..]) else None
      case _ => None
  }

  ghost predicate FirstNamed(rules: seq<Rule>, name: string, rule: Rule) {
    exists i :: 0 <= i < |rules| && rules[i] == rule && rule.name == name
             && forall j :: 0 <= j < i ==> rules[j].name != name
  }

  lemma FirstNamedAppend(xs: seq<Rule>, ys: seq<Rule>, name: string, rule: Rule)
    ensures FirstNamed(xs, name, rule) ==> FirstNamed(xs + ys, name, rule)
    ensures (forall x <- xs :: x.name != name) && FirstNamed(ys, name, rule) ==> FirstNamed(xs + ys, name, rule)
  {
    if i :| 0 <= i < |xs| && xs[i] == rule && rule.name == name && forall j :: 0 <= j < i ==> xs[j].name != name {
      assert (xs + ys)[i] == rule;
    }
    if !(forall x <- xs :: x.name != name) {
    } else if i :| 0 <= i < |ys| && ys[i] == rule && rule.name == name && forall j :: 0 <= j < i ==> ys[j].name != name {
      assert (xs + ys)[|xs| + i] == rule;
      forall j | 0 <= j < |xs| + i ensures (xs + ys)[j].name != name {
        assert j < |xs| ==> (xs + ys)[j] in xs;
        assert j >= |xs| ==> (xs + ys)[j] == ys[j - |xs|];
      }
    }
  }

  /** The search finds a rule exactly when there is one of that name, it finds the first, and its path
      leads there. */
  lemma {:induction false} SearchFinds(b: Behaviour, name: string)
    ensures var r := Search(b, name);
      && (r.None? <==> forall x <- AllRules(b) :: x.name != name)
      && (r.Some? ==> FirstNamed(AllRules(b), name, r.value.rule) && Follow(b, r.value.path) == Some(r.value.rule))
    decreases b, 1, 0
  {
    match b
    case OfRules(_, rules) =>
      var i := FindRule(rules, 0, name);
      if i.Some? {
        assert rules[i.value] in rules;
      }
    case OfList(_) =>
      SearchListFinds(b, 0, name);
  }

  lemma {:induction false} SearchListFinds(b: Behaviour, k: nat, name: string)
    requires b.OfList? && k <= |b.list|
    ensures var r := SearchList(b, k, name);
      && (r.None? <==> forall x <- AllFrom(b, k) :: x.name != name)
      && (r.Some? ==> FirstNamed(AllFrom(b, k), name, r.value.rule) && Follow(b, r.value.path) == Some(r.value.rule))
    decreases b, 0, |b.list| - k
  {
    if k < |b.list| {
      SearchFinds(b.list[k], name);
      SearchListFinds(b, k + 1, name);
      var r := Search(b.list[k], name);
      var rule := if r.Some? then r.value.rule else if SearchList(b, k + 1, name).Some? then SearchList(b, k + 1, name).value.rule else Rule("", 0);
      FirstNamedAppend(AllRules(b.list[k]), AllFrom(b, k + 1), name, rule);
      if r.Some? {
        assert ([InList(k)] + r.value.path)[1..] == r.value.path;
        assert rule in AllRules(b.list[k]);
        assert rule in AllFrom(b, k);
      }
    }
  }

  // ---------- the search as it is done: the path is built from its end and then turned round ----------

  function Backwards<T>(s: seq<T>): seq<T> {
    seq(|s|, i requires 0 <= i < |s| => s[|s| - 1 - i])
  }

  class Resolver {
    var path: Path

    method ResolveRules(b: Behaviour, name: string) returns (r: Option<Rule>)
      requires b.OfRules?
      modifies this
      ensures var hit := Search(b, name);
        if hit.Some? then r == Some(hit.value.rule) && path == old(path) + Backwards(hit.value.path)
        else r == None && path == old(path)
    {
      for i := 0 to |b.rules|
        invariant path == old(path)
        invariant FindRule(b.rules, 0, name) == FindRule(b.rules, i, name)
      {
        var rule := b.rules[i];
        if rule.name == name {
          path := path + [InRules(i, b.self)];
          return Some(rule);
        }
      }
      return None;
    }

    method ResolveList(b: Behaviour, name: string) returns (r: Option<Rule>)
      requires b.OfList?
      modifies this
      ensures var hit := Search(b, name);
        if hit.Some? then r == Some(hit.value.rule) && path == old(path) + Backwards(hit.value.path)
        else r == None && path == old(path)
      decreases b, 0
    {
      for i := 0 to |b.list|
        invariant path == old(path)
        invariant SearchList(b, 0, name) == SearchList(b, i, name)
      {
        r := ResolveIn(b.list[i], name);
        if r.Some? {
          var below := Search(b.list[i], name).value.path;
          path := path + [InList(i)];
          assert Backwards([InList(i)] + below) == Backwards(below) + [InList(i)];
          return;
        }
      }
      return None;
    }

    method ResolveIn(b: Behaviour, name: string) returns (r: Option<Rule>)
      modifies this
      ensures var hit := Search(b, name);
        if hit.Some? then r == Some(hit.value.rule) && path == old(path) + Backwards(hit.value.path)
        else r == None && path == old(path)
      decreases b, 1
    {
      if b.OfRules? {
        r := ResolveRules(b, name);
      } else {
        r := ResolveList(b, name);
      }
    }

    /** A parameter without a behaviour has no rules. */
    method Resolve(behaviour: Option<Behaviour>, name: string) returns (r: Option<Rule>)
      modifies this
      ensures behaviour.None? ==> r == None && path == old(path)
      ensures behaviour.Some? ==>
        var hit := Search(behaviour.value, name);
        if hit.Some? then r == Some(hit.value.rule) && path == hit.value.path else r == None && path == []
    {
      if behaviour.None? {
        return None;
      }
      path := [];
      r := ResolveIn(behaviour.value, name);
      TurnRound();
      ghost var hit := Search(behaviour.value, name);
      assert hit.Some? ==> Backwards(Backwards(hit.value.path)) == hit.value.path;
      assert [] + Backwards(if hit.Some? then hit.value.path else []) == Backwards(if hit.Some? then hit.value.path else []);
    }

    method TurnRound()
      modifies this
      ensures path == Backwards(old(path))
    {
      var len := |path|;
      for i := 0 to len / 2
        invariant |path| == len
        invariant forall k :: 0 <= k < i ==> path[k] == old(path)[len - 1 - k] && path[len - 1 - k] == old(path)[k]
        invariant forall k :: i <= k < len - i ==> path[k] == old(path)[k]
      {
        var tmp := path[i];
        path := path[i := path[len - i - 1]];
        path := path[len - i - 1 := tmp];
      }
    }
  }
}
