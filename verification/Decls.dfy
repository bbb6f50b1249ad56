/** The declarations of a module, and looking them up by name and owner type. */
module Decls {
  import opened Options
  import opened Types

  /** `inType` is the owner of an extension function. */
  datatype Decl = Decl(name: string, inType: Option<Ref>, ty: Ref)

  ghost predicate Known(t: Types, ds: seq<Decl>) {
    t.Ok() && forall d <- ds :: d.inType.Some? ==> d.inType.value in t.node
  }

  predicate Matches(t: Types, d: Decl, inType: Option<Ref>, name: string)
    requires t.Ok() && (inType.Some? ==> inType.value in t.node) && (d.inType.Some? ==> d.inType.value in t.node)
  {
    && d.name == name
    && (if inType.Some? then d.inType.Some? && Equals(t, d.inType.value, inType.value) else d.inType.None?)
  }

  function Find(t: Types, ds: seq<Decl>, inType: Option<Ref>, name: string): (r: Option<Decl>)
    requires Known(t, ds) && (inType.Some? ==> inType.value in t.node)
    ensures r.Some? ==> r.value in ds && Matches(t, r.value, inType, name)
    ensures r.None? ==> forall d <- ds :: !Matches(t, d, inType, name)
  {
    if ds == [] then None
    else if Matches(t, ds[0], inType, name) then Some(ds[0])
    else Find(t, ds[1..], inType, name)
  }

  /** No two declarations could be confused. */
  ghost predicate Distinct(t: Types, ds: seq<Decl>)
    requires Known(t, ds)
  {
    forall i, j :: 0 <= i < j < |ds| ==> !Matches(t, ds[i], ds[j].inType, ds[j].name)
  }

  /** Owners through which no generic can be reached. */
  ghost predicate FixedOwners(t: Types, ds: seq<Decl>)
    requires Known(t, ds)
  {
    forall d <- ds :: d.inType.Some? ==> Fixed(t, d.inType.value)
  }

  class ModuleDecls {
    var privateDecls: seq<Decl>
    var publicDecls: seq<Decl>

    ghost predicate Valid(t: Types)
      reads this
    {
      && Known(t, privateDecls) && Distinct(t, privateDecls)
      && forall d <- publicDecls :: d in privateDecls
    }

    constructor (ghost t: Types)
      requires t.Ok()
      ensures Valid(t) && privateDecls == [] && publicDecls == []
    {
      privateDecls, publicDecls := [], [];
    }

    method ResolveInType(t: Types, inType: Option<Ref>, name: string) returns (r: Option<Decl>)
      requires Known(t, privateDecls) && (inType.Some? ==> inType.value in t.node)
      ensures r == Find(t, privateDecls, inType, name)
    {
      for j := 0 to |privateDecls|
        invariant Find(t, privateDecls, inType, name) == Find(t, privateDecls[j..], inType, name)
      {
        var decl := privateDecls[j];
        assert privateDecls[j..][1..] == privateDecls[j + 1..];
        if decl.name == name {
          if inType.Some? {
            if decl.inType.Some? && Equals(t, decl.inType.value, inType.value) {
              return Some(decl);
            }
          } else if decl.inType.None? {
            return Some(decl);
          }
        }
      }
      return None;
    }

    /** What other modules can see under a name. */
    method ResolvePublic(name: string, ghost t: Types) returns (r: Option<Decl>)
      requires Valid(t)
      ensures r.Some? ==> r.value in publicDecls && Find(t, privateDecls, None, name) == r
      ensures r.None? ==> forall d <- publicDecls :: d.inType.Some? || d.name != name
    {
      for j := 0 to |publicDecls|
        invariant forall d <- publicDecls[..j] :: d.inType.Some? || d.name != name
      {
        var decl := publicDecls[j];
        if decl.inType.None? && decl.name == name {
          OnlyMatch(t, privateDecls, decl, None, name);
          return Some(decl);
        }
      }
      return None;
    }

    method Push(t: Types, public: bool, decl: Decl) returns (ok: bool)
      requires Valid(t) && Known(t, [decl])
      modifies this
      ensures Valid(t)
      ensures ok <==> Find(t, old(privateDecls), decl.inType, decl.name).None?
      ensures privateDecls == old(privateDecls) + if ok then [decl] else []
      ensures publicDecls == old(publicDecls) + if ok && public then [decl] else []
    {
      assert decl in [decl];
      var found := ResolveInType(t, decl.inType, decl.name);
      if found.Some? {
        return false;
      }
      privateDecls := privateDecls + [decl];
      if public {
        publicDecls := publicDecls + [decl];
      }
      return true;
    }

    /** What an import brings in: the public declarations that belong to no type, or the others. */
    method AppendFrom(t: Types, public: bool, extFuncs: bool, from: seq<Decl>)
      requires Valid(t) && Known(t, from)
      modifies this
      ensures Valid(t)
      ensures old(privateDecls) <= privateDecls
      ensures publicDecls == old(publicDecls) + if public then privateDecls[|old(privateDecls)|..] else []
      ensures forall d <- privateDecls :: d in old(privateDecls) || (d in from && d.inType.Some? == extFuncs)
      ensures forall d <- from :: d.inType.Some? == extFuncs ==> Find(t, privateDecls, d.inType, d.name).Some?
    {
      for i := 0 to |from|
        invariant Valid(t)
        invariant old(privateDecls) <= privateDecls
        invariant publicDecls == old(publicDecls) + if public then privateDecls[|old(privateDecls)|..] else []
        invariant forall d <- privateDecls :: d in old(privateDecls) || (d in from && d.inType.Some? == extFuncs)
        invariant forall k :: 0 <= k < i && from[k].inType.Some? == extFuncs ==>
          exists d <- privateDecls :: Matches(t, d, from[k].inType, from[k].name)
      {
        var decl := from[i];
        if decl.inType.Some? == extFuncs {
          var before := privateDecls;
          var ok := Push(t, public, decl);
          SelfMatch(t, decl);
          assert ok ==> privateDecls[|before|] == decl;
        }
      }
    }
  }

  lemma SelfMatch(t: Types, d: Decl)
    requires Known(t, [d])
    ensures d in [d] && Matches(t, d, d.inType, d.name)
  {
  }

  // ---------- lookups do not depend on the order, nor on which of two equal types is asked for ----------

  /** Two declarations that answer the same question are the same declaration. */
  lemma MatchesMeet(t: Types, d: Decl, e: Decl, inType: Option<Ref>, name: string)
    requires Known(t, [d, e]) && (inType.Some? ==> inType.value in t.node)
    requires d in [d, e] && e in [d, e] && Matches(t, d, inType, name) && Matches(t, e, inType, name)
    requires d.inType.Some? ==> Concrete(ShapeOf(t, d.inType.value))
    ensures Matches(t, d, e.inType, e.name)
  {
    if d.inType.Some? {
      EqualSameShape(t, d.inType.value, inType.value);
      EqualSameShape(t, e.inType.value, inType.value);
      SameShapeEqual(t, d.inType.value, e.inType.value);
    }
  }

  lemma OnlyMatch(t: Types, ds: seq<Decl>, d: Decl, inType: Option<Ref>, name: string)
    requires Known(t, ds) && Distinct(t, ds) && d in ds && (inType.Some? ==> inType.value in t.node && FixedOwners(t, ds))
    requires Matches(t, d, inType, name)
    ensures Find(t, ds, inType, name) == Some(d)
  {
    var e := Find(t, ds, inType, name).value;
    var i :| 0 <= i < |ds| && ds[i] == d;
    var j :| 0 <= j < |ds| && ds[j] == e;
    if inType.Some? {
      FixedIsConcrete(t, d.inType.value);
      FixedIsConcrete(t, e.inType.value);
    }
    MatchesMeet(t, d, e, inType, name);
    MatchesMeet(t, e, d, inType, name);
    assert i == j;
  }

  lemma FindAnyOrder(t: Types, ds: seq<Decl>, es: seq<Decl>, inType: Option<Ref>, name: string)
    requires Known(t, ds) && Distinct(t, ds) && FixedOwners(t, ds) && multiset(ds) == multiset(es)
    requires inType.Some? ==> inType.value in t.node
    ensures Known(t, es) && Find(t, ds, inType, name) == Find(t, es, inType, name)
  {
    forall d ensures d in ds <==> d in es {
      assert d in ds <==> d in multiset(ds);
      assert d in es <==> d in multiset(es);
    }
    var r := Find(t, es, inType, name);
    if r.Some? {
      OnlyMatch(t, ds, r.value, inType, name);
    }
  }

  lemma {:induction false} FindEqualTypes(t: Types, ds: seq<Decl>, a: Ref, b: Ref, name: string)
    requires Known(t, ds) && FixedOwners(t, ds) && a in t.node && b in t.node && Equals(t, a, b)
    ensures Find(t, ds, Some(a), name) == Find(t, ds, Some(b), name)
    decreases |ds|
  {
    if ds != [] {
      EqualSameShape(t, a, b);
      var d := ds[0];
      if d.inType.Some? {
        FixedIsConcrete(t, d.inType.value);
        forall c | c in {a, b} && ShapeOf(t, a) == ShapeOf(t, c)
          ensures Equals(t, d.inType.value, c) <==> ShapeOf(t, d.inType.value) == ShapeOf(t, c)
        {
          if Equals(t, d.inType.value, c) {
            EqualSameShape(t, d.inType.value, c);
          } else if ShapeOf(t, d.inType.value) == ShapeOf(t, c) {
            SameShapeEqual(t, d.inType.value, c);
          }
        }
      }
      FindEqualTypes(t, ds[1..], a, b, name);
    }
  }

  /** Filling in or changing replacements of generics, and adding types, disturbs none of this. */
  lemma DistinctKept(t: Types, t': Types, ds: seq<Decl>)
    requires Known(t, ds) && Distinct(t, ds) && FixedOwners(t, ds) && t'.Ok()
    requires forall x <- t.node :: x in t'.node && (!t.node[x].Generic? ==> t'.node[x] == t.node[x])
    ensures Known(t', ds) && Distinct(t', ds) && FixedOwners(t', ds)
  {
    forall d | d in ds && d.inType.Some?
      ensures Fixed(t', d.inType.value) && ShapeOf(t', d.inType.value) == ShapeOf(t, d.inType.value) && Concrete(ShapeOf(t, d.inType.value))
    {
      FixedIsConcrete(t, d.inType.value);
      FixedKeepsShape(t, t', d.inType.value);
    }
    forall i, j | 0 <= i < j < |ds|
      ensures !Matches(t', ds[i], ds[j].inType, ds[j].name)
    {
      assert !Matches(t, ds[i], ds[j].inType, ds[j].name);
      if Matches(t', ds[i], ds[j].inType, ds[j].name) && ds[i].inType.Some? {
        EqualSameShape(t', ds[i].inType.value, ds[j].inType.value);
        SameShapeEqual(t, ds[i].inType.value, ds[j].inType.value);
      }
    }
  }
}
