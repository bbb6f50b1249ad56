/** When a type meets a behaviour: building its table reports no error exactly if each rule, however deep
    it is nested, is answered by the function that a lookup finds for it. */
module Conformance {
  import opened Options
  import opened Types
  import opened Decls
  import opened Behaviours
  import opened BehaviourTable

  /** A rule, and the generic that stands for Self in it. */
  datatype Duty = Duty(rule: Rule, self: Ref)

  function Duties(b: Behaviour): set<Duty> {
    match b
    case OfRules(self, rules) => set r <- rules :: Duty(r, self)
    case OfList(list) => set i, d | 0 <= i < |list| && d in Duties(list[i]) :: d
  }

  /** A function of the type, by name. */
  predicate Owned(s: Setting, d: Decl, name: string)
    requires d in s.decls
  {
    d.name == name && d.inType.Some? && Equals(s.before, d.inType.value, s.ty)
  }

  /** The types with one Self replaced. */
  function Replaced(s: Setting, self: Ref): (t: Types)
    requires self in s.selfs
    ensures t == s.Now({self})
  {
    var t := s.before.(node := s.before.node[self := Generic(Some(s.ty))]);
    assert t.node == s.Now({self}).node;
    t
  }

  /** The function has the type of the rule, with Self replaced. */
  predicate Fits(s: Setting, d: Decl, duty: Duty)
    requires d in s.decls && duty.self in s.selfs && duty.rule.ty in s.before.node
  {
    Equals(Replaced(s, duty.self), d.ty, duty.rule.ty)
  }

  /** The first function of the type that has the rule's name fits. */
  ghost predicate Done(s: Setting, duty: Duty)
    requires duty.self in s.selfs && duty.rule.ty in s.before.node
  {
    exists i :: 0 <= i < |s.decls| && Owned(s, s.decls[i], duty.rule.name) && Fits(s, s.decls[i], duty)
             && forall j :: 0 <= j < i ==> !Owned(s, s.decls[j], duty.rule.name)
  }

  ghost predicate Conforms(s: Setting, b: Behaviour)
    requires s.Suits(b)
  {
    forall duty <- Duties(b) :: DutyKnown(s, b, duty); Done(s, duty)
  }

  lemma {:induction false} DutyKnown(s: Setting, b: Behaviour, duty: Duty)
    requires s.Suits(b) && duty in Duties(b)
    ensures duty.self in s.selfs && duty.rule.ty in s.before.node
    decreases b
  {
    if b.OfList? {
      var i :| 0 <= i < |b.list| && duty in Duties(b.list[i]);
      assert Selfs(b.list[i]) <= Selfs(b);
      DutyKnown(s, b.list[i], duty);
    }
  }

  // ---------- one rule ----------

  lemma OwnedNow(s: Setting, filled: set<Ref>, d: Decl, name: string)
    requires filled <= s.selfs && DeclsApart(s) && d in s.decls
    ensures Matches(s.Now(filled), d, Some(s.ty), name) <==> Owned(s, d, name)
  {
    assert s.Now({}).node == s.before.node;
    if d.inType.Some? {
      ApartUntouched(s, d.inType.value, {}, {}, filled);
      ApartUntouched(s, s.ty, {}, {}, filled);
      UntouchedEquals(s.Now({}), s.Now(filled), d.inType.value, s.ty);
    }
  }

  lemma {:induction false} FindIsFirst(t: Types, ds: seq<Decl>, inType: Option<Ref>, name: string) returns (i: nat)
    requires Known(t, ds) && (inType.Some? ==> inType.value in t.node) && Find(t, ds, inType, name).Some?
    ensures i < |ds| && Find(t, ds, inType, name) == Some(ds[i]) && Matches(t, ds[i], inType, name)
    ensures forall j :: 0 <= j < i ==> !Matches(t, ds[j], inType, name)
    decreases |ds|
  {
    if Matches(t, ds[0], inType, name) {
      return 0;
    }
    i := FindIsFirst(t, ds[1..], inType, name);
    forall j | 0 <= j < i + 1 ensures !Matches(t, ds[j], inType, name) {
      assert j > 0 ==> ds[j] == ds[1..][j - 1];
    }
    i := i + 1;
  }

  /** However many Selfs have been replaced by then, the answer for a rule is the same. */
  lemma AskExact(s: Setting, duty: Duty, filled: set<Ref>)
    requires filled + {duty.self} <= s.selfs && duty.rule.ty in s.before.node
    requires DeclsApart(s) && Apart(s.before, duty.rule.ty, s.selfs, {duty.self})
    ensures s.Ask(duty.rule, duty.self, filled).Right? <==> Done(s, duty)
  {
    var t, name := s.Now(filled), duty.rule.name;
    forall d | d in s.decls
      ensures Matches(t, d, Some(s.ty), name) <==> Owned(s, d, name)
    {
      OwnedNow(s, filled, d, name);
    }
    var found := s.Lookup(filled, name);
    if found.Some? {
      var k := FindIsFirst(t, s.decls, Some(s.ty), name);
      FirstDecides(s, duty, k);
      FitsNow(s, filled, found.value, duty);
      assert s.Ask(duty.rule, duty.self, filled).Right? <==> s.SameType(filled + {duty.self}, found.value, duty.rule);
    } else {
      assert s.Ask(duty.rule, duty.self, filled) == Missing;
    }
  }

  lemma FirstDecides(s: Setting, duty: Duty, k: nat)
    requires duty.self in s.selfs && duty.rule.ty in s.before.node && k < |s.decls|
    requires Owned(s, s.decls[k], duty.rule.name) && forall j :: 0 <= j < k ==> !Owned(s, s.decls[j], duty.rule.name)
    ensures Done(s, duty) <==> Fits(s, s.decls[k], duty)
  {
  }

  lemma FitsNow(s: Setting, filled: set<Ref>, d: Decl, duty: Duty)
    requires filled + {duty.self} <= s.selfs && duty.rule.ty in s.before.node && d in s.decls
    requires DeclsApart(s) && Apart(s.before, duty.rule.ty, s.selfs, {duty.self})
    ensures s.SameType(filled + {duty.self}, d, duty.rule) <==> Fits(s, d, duty)
  {
    ApartUntouched(s, d.ty, {}, {duty.self}, filled + {duty.self});
    ApartUntouched(s, duty.rule.ty, {duty.self}, {duty.self}, filled + {duty.self});
    UntouchedEquals(s.Now({duty.self}), s.Now(filled + {duty.self}), d.ty, duty.rule.ty);
  }

  // ---------- all rules ----------

  /** The answers that a table needs do not depend on when they are given. */
  lemma {:induction false} MeetsIfAll(ask: Ask, b: Behaviour, k: nat, filled: set<Ref>, done: seq<bool>)
    requires b.OfRules? && k <= |b.rules| == |done|
    requires forall i :: 0 <= i < |done| ==> ask(b.rules[i], b.self, filled).Right? == done[i]
    requires forall i :: 0 <= i < |done| ==> ask(b.rules[i], b.self, filled + {b.self}).Right? == done[i]
    ensures MeetRules(ask, b, k, filled).functions.Some? <==> forall i :: k <= i < |done| ==> done[i]
    decreases |b.rules| - k
  {
    if k < |b.rules| {
      assert filled + {b.self} + {b.self} == filled + {b.self};
      MeetsIfAll(ask, b, k + 1, filled + {b.self}, done);
      assert ask(b.rules[k], b.self, filled).Right? == done[k];
    }
  }

  lemma RuleFits(s: Setting, b: Behaviour, k: nat)
    requires b.OfRules? && k < |b.rules| && s.Suits(b)
    ensures b.self in s.selfs && b.rules[k].ty in s.before.node
    ensures Separate(s, b) ==> Apart(s.before, b.rules[k].ty, s.selfs, {b.self})
  {
    assert b.rules[k] in b.rules;
  }

  lemma RuleExact(s: Setting, b: Behaviour, k: nat, filled: set<Ref>)
    requires b.OfRules? && k < |b.rules| && s.Suits(b) && Separate(s, b) && filled <= s.selfs
    ensures b.self in s.selfs && b.rules[k].ty in s.before.node
    ensures s.Ask(b.rules[k], b.self, filled).Right? <==> Done(s, Duty(b.rules[k], b.self))
  {
    RuleFits(s, b, k);
    AskExact(s, Duty(b.rules[k], b.self), filled);
  }

  /** Which rules are answered, whether or not Self has been replaced. */
  lemma Answered(s: Setting, b: Behaviour, filled: set<Ref>) returns (done: seq<bool>)
    requires b.OfRules? && s.Suits(b) && Separate(s, b) && filled <= s.selfs
    ensures |done| == |b.rules|
    ensures forall i :: 0 <= i < |done| ==> b.rules[i].ty in s.before.node && done[i] == Done(s, Duty(b.rules[i], b.self))
    ensures forall i :: 0 <= i < |done| ==> s.Ask(b.rules[i], b.self, filled).Right? == done[i]
  {
    forall i | 0 <= i < |b.rules| ensures b.self in s.selfs && b.rules[i].ty in s.before.node {
      RuleFits(s, b, i);
    }
    done := seq(|b.rules|, i requires 0 <= i < |b.rules| => Done(s, Duty(b.rules[i], b.self)));
    forall i | 0 <= i < |done| ensures s.Ask(b.rules[i], b.self, filled).Right? == done[i] {
      RuleExact(s, b, i, filled);
    }
  }

  lemma RulesExact(s: Setting, b: Behaviour, filled: set<Ref>)
    requires b.OfRules? && s.Suits(b) && Separate(s, b) && filled <= s.selfs
    ensures MeetRules(s.Ask, b, 0, filled).functions.Some? <==> Conforms(s, b)
  {
    var done := Answered(s, b, filled);
    var later := Answered(s, b, filled + {b.self});
    assert done == later;
    MeetsIfAll(s.Ask, b, 0, filled, done);
    OwnDuties(s, b, done);
  }

  lemma OwnDuties(s: Setting, b: Behaviour, done: seq<bool>)
    requires b.OfRules? && s.Suits(b) && |done| == |b.rules|
    requires forall i :: 0 <= i < |done| ==> b.rules[i].ty in s.before.node && done[i] == Done(s, Duty(b.rules[i], b.self))
    ensures Conforms(s, b) <==> forall i :: 0 <= i < |done| ==> done[i]
  {
    forall i | 0 <= i < |done| ensures Duty(b.rules[i], b.self) in Duties(b) {
      assert b.rules[i] in b.rules;
    }
    forall duty | duty in Duties(b) ensures exists i :: 0 <= i < |done| && duty == Duty(b.rules[i], b.self) {
      var r :| r in b.rules && duty == Duty(r, b.self);
    }
  }

  /** For rules that speak of no other Self than their own, and a type and functions that speak of none:
      building reports no error if and only if the type conforms. */
  lemma {:induction false} BuildExact(s: Setting, b: Behaviour, filled: set<Ref>)
    requires s.Suits(b) && Separate(s, b) && filled <= s.selfs
    ensures !Build(s.Ask, s.ty, b, filled).failed <==> Conforms(s, b)
    decreases b, 1, 0
  {
    match b
    case OfRules(_, _) =>
      RulesExact(s, b, filled);
    case OfList(_) =>
      ListExact(s, b, 0, filled);
      PartsConform(s, b);
  }

  lemma {:induction false} ListExact(s: Setting, b: Behaviour, k: nat, filled: set<Ref>)
    requires b.OfList? && k <= |b.list| && s.Suits(b) && Separate(s, b) && filled <= s.selfs
    ensures !BuildList(s.Ask, s.ty, b, k, filled).failed <==> ConformFrom(s, b, k)
    decreases b, 0, |b.list| - k
  {
    if k < |b.list| {
      PartSuits(s, b, k);
      BuildExact(s, b.list[k], filled);
      var first := Build(s.Ask, s.ty, b.list[k], filled);
      ListTurn(s.Ask, s.ty, b, k, filled);
      ListExact(s, b, k + 1, first.filled);
      ConformTurn(s, b, k);
    }
  }

  lemma ConformTurn(s: Setting, b: Behaviour, k: nat)
    requires b.OfList? && k < |b.list| && s.Suits(b.list[k])
    ensures ConformFrom(s, b, k) <==> Conforms(s, b.list[k]) && ConformFrom(s, b, k + 1)
  {
  }

  ghost predicate ConformFrom(s: Setting, b: Behaviour, k: nat)
    requires b.OfList?
  {
    forall i :: k <= i < |b.list| ==> s.Suits(b.list[i]) && Conforms(s, b.list[i])
  }

  lemma ListTurn(ask: Ask, ty: Ref, b: Behaviour, k: nat, filled: set<Ref>)
    requires b.OfList? && k < |b.list|
    ensures var first := Build(ask, ty, b.list[k], filled);
      BuildList(ask, ty, b, k, filled).failed == (first.failed || BuildList(ask, ty, b, k + 1, first.filled).failed)
  {
  }

  lemma PartSuits(s: Setting, b: Behaviour, k: nat)
    requires b.OfList? && k < |b.list| && s.Suits(b)
    ensures s.Suits(b.list[k]) && (Separate(s, b) ==> Separate(s, b.list[k]))
  {
    assert Selfs(b.list[k]) <= Selfs(b);
  }

  lemma PartsConform(s: Setting, b: Behaviour)
    requires b.OfList? && s.Suits(b)
    ensures Conforms(s, b) <==> ConformFrom(s, b, 0)
  {
    forall i | 0 <= i < |b.list| ensures s.Suits(b.list[i]) && Duties(b.list[i]) <= Duties(b) {
      assert Selfs(b.list[i]) <= Selfs(b);
    }
  }

  // ---------- where no two functions could be confused ----------

  /** Then any function of the name and type will do. */
  lemma AnyFunction(s: Setting, duty: Duty)
    requires duty.self in s.selfs && duty.rule.ty in s.before.node
    requires Distinct(s.before, s.decls) && FixedOwners(s.before, s.decls)
    ensures Done(s, duty) <==> exists d <- s.decls :: Owned(s, d, duty.rule.name) && Fits(s, d, duty)
  {
    if d :| d in s.decls && Owned(s, d, duty.rule.name) && Fits(s, d, duty) {
      OnlyMatch(s.before, s.decls, d, Some(s.ty), duty.rule.name);
      var i := FindIsFirst(s.before, s.decls, Some(s.ty), duty.rule.name);
      assert s.decls[i] == d;
    }
  }
}
