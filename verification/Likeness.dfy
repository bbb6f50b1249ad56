/** Equality of types without reference to how it is decided: two types are equal if looking inside, side
    by side and past replaced generics, never comes to anything that differs. */
module Likeness {
  import opened Options
  import opened Types

  /** Where the replacements of a type end. */
  function End(t: Types, r: Ref): (e: Ref)
    requires t.Ok() && r in t.node
    ensures e in t.node && (t.node[e].Generic? ==> t.node[e].replace.None?)
    ensures ShapeOf(t, e) == ShapeOf(t, r) && t.depth[e] <= t.depth[r]
    decreases t.depth[r]
  {
    match t.node[r]
    case Generic(Some(x)) => End(t, x)
    case _ => r
  }

  type Pairs = set<(Ref, Ref)>

  /** The same kind of type with the same names and lengths, and parts that are paired. */
  predicate Alike(t: Types, a: Ref, b: Ref, pairs: Pairs)
    requires a in t.node && b in t.node
  {
    match (t.node[a], t.node[b])
    case (Prim(p), Prim(q)) => p == q
    case (Struct(ms), Struct(ns)) =>
      |ms| == |ns| && forall i :: 0 <= i < |ms| ==> ms[i].name == ns[i].name && (ms[i].ty, ns[i].ty) in pairs
    case (Func(r, xs), Func(q, ys)) =>
      (r, q) in pairs && |xs| == |ys| && forall i :: 0 <= i < |xs| ==> (xs[i], ys[i]) in pairs
    case (OptionalOf(x), OptionalOf(y)) => (x, y) in pairs
    case (PointerTo(x), PointerTo(y)) => (x, y) in pairs
    case (SliceOf(x), SliceOf(y)) => (x, y) in pairs
    case (ArrayOf(m, x), ArrayOf(n, y)) => m == n && (x, y) in pairs
    case (Generic(None), Generic(None)) => a == b
    case _ => false
  }

  ghost predicate NeverDiffers(t: Types, pairs: Pairs)
    requires t.Ok()
  {
    forall p <- pairs :: p.0 in t.node && p.1 in t.node && Alike(t, End(t, p.0), End(t, p.1), pairs)
  }

  lemma {:induction false} PairedSameShape(t: Types, pairs: Pairs, a: Ref, b: Ref)
    requires t.Ok() && NeverDiffers(t, pairs) && (a, b) in pairs
    ensures a in t.node && b in t.node && ShapeOf(t, a) == ShapeOf(t, b)
    decreases if a in t.depth then t.depth[a] else 0
  {
    assert (a, b).0 in t.node && (a, b).1 in t.node;
    var x, y := End(t, a), End(t, b);
    assert Alike(t, x, y, pairs);
    match t.node[x]
    case Struct(ms) =>
      var ns := t.node[y].members;
      forall i | 0 <= i < |ms| ensures ShapeOf(t, x).fields[i] == ShapeOf(t, y).fields[i] {
        assert ms[i].ty in Parts(t.node[x]) && ns[i].ty in Parts(t.node[y]);
        PairedSameShape(t, pairs, ms[i].ty, ns[i].ty);
      }
      assert ShapeOf(t, x).fields == ShapeOf(t, y).fields;
    case Func(r, xs) =>
      var ys := t.node[y].args;
      assert r in Parts(t.node[x]);
      PairedSameShape(t, pairs, r, t.node[y].returning);
      forall i | 0 <= i < |xs| ensures ShapeOf(t, x).args[i] == ShapeOf(t, y).args[i] {
        assert xs[i] in Parts(t.node[x]) && ys[i] in Parts(t.node[y]);
        PairedSameShape(t, pairs, xs[i], ys[i]);
      }
      assert ShapeOf(t, x).args == ShapeOf(t, y).args;
    case OptionalOf(z) => PairedSameShape(t, pairs, z, t.node[y].of);
    case PointerTo(z) => PairedSameShape(t, pairs, z, t.node[y].of);
    case SliceOf(z) => PairedSameShape(t, pairs, z, t.node[y].of);
    case ArrayOf(_, z) => PairedSameShape(t, pairs, z, t.node[y].of);
    case _ =>
  }

  /** All pairs of types of the same shape. */
  function SameShape(t: Types): Pairs
    requires t.Ok()
  {
    set a, b | a in t.node && b in t.node && ShapeOf(t, a) == ShapeOf(t, b) :: (a, b)
  }

  lemma SameShapeAlike(t: Types, a: Ref, b: Ref)
    requires t.Ok() && a in t.node && b in t.node && ShapeOf(t, a) == ShapeOf(t, b)
    ensures Alike(t, End(t, a), End(t, b), SameShape(t))
  {
    var x, y := End(t, a), End(t, b);
    match t.node[x]
    case Struct(ms) =>
      var ns := t.node[y].members;
      assert |ShapeOf(t, x).fields| == |ms| && |ShapeOf(t, y).fields| == |ns|;
      forall i | 0 <= i < |ms| ensures ms[i].name == ns[i].name && (ms[i].ty, ns[i].ty) in SameShape(t) {
        assert ms[i].ty in Parts(t.node[x]) && ns[i].ty in Parts(t.node[y]);
        assert ShapeOf(t, x).fields[i] == ShapeOf(t, y).fields[i];
      }
    case Func(_, xs) =>
      var ys := t.node[y].args;
      assert |ShapeOf(t, x).args| == |xs| && |ShapeOf(t, y).args| == |ys|;
      forall i | 0 <= i < |xs| ensures (xs[i], ys[i]) in SameShape(t) {
        assert xs[i] in Parts(t.node[x]) && ys[i] in Parts(t.node[y]);
        assert ShapeOf(t, x).args[i] == ShapeOf(t, y).args[i];
      }
    case _ =>
  }

  /** Where no chain of replacements is long, what the analyser accepts as equal is what nothing inside tells
      apart. */
  lemma EqualsIsLikeness(t: Types, a: Ref, b: Ref)
    requires t.Ok() && NoLongChain(t) && a in t.node && b in t.node
    ensures Equals(t, a, b) <==> exists pairs: Pairs :: (a, b) in pairs && NeverDiffers(t, pairs)
  {
    if Equals(t, a, b) {
      EqualSameShape(t, a, b);
      forall p | p in SameShape(t) ensures p.0 in t.node && p.1 in t.node && Alike(t, End(t, p.0), End(t, p.1), SameShape(t)) {
        SameShapeAlike(t, p.0, p.1);
      }
      assert (a, b) in SameShape(t) && NeverDiffers(t, SameShape(t));
    }
    if pairs: Pairs :| (a, b) in pairs && NeverDiffers(t, pairs) {
      PairedSameShape(t, pairs, a, b);
      SameShapeEqual(t, a, b);
    }
  }

  // ---------- layout ----------

  /** Through any replacements: an optional is a bit and the value, a slice a length of 64 bits and an
      address, an array so many of its items one after the other. */
  lemma LayoutByKind(t: Types, r: Ref)
    requires t.Ok() && r in t.node && Concrete(ShapeOf(t, r))
    ensures var l := LayoutOf(ShapeOf(t, r));
      match t.node[End(t, r)]
      case OptionalOf(x) => l == Fields([Layout.Bits(1), LayoutAt(t, x)])
      case SliceOf(x) => l == Fields([Layout.Bits(64), AddressOf(LayoutAt(t, x))])
      case ArrayOf(n, x) => l == Items(LayoutAt(t, x), n)
      case PointerTo(x) => l == AddressOf(LayoutAt(t, x))
      case Struct(ms) =>
        l.Fields? && |l.elements| == |ms| && forall i :: 0 <= i < |ms| ==> l.elements[i] == LayoutAt(t, ms[i].ty)
      case Func(ret, args) =>
        && l.AddressOf? && l.to.Code? && l.to.returning == LayoutAt(t, ret) && |l.to.params| == |args|
        && forall i :: 0 <= i < |args| ==> l.to.params[i] == LayoutAt(t, args[i])
      case Prim(Bool) => l == Layout.Bits(1)
      case Prim(Void) => l == Layout.Nothing
      case Prim(FloatOf(F32)) => l == FloatBits
      case Prim(FloatOf(F64)) => l == DoubleBits
      case Prim(IntOf(_)) => l.Bits?
      case Generic(_) => false
  {
    var e := End(t, r);
    assert ShapeOf(t, e) == ShapeOf(t, r);
    match t.node[e]
    case Struct(ms) =>
      forall i | 0 <= i < |ms| ensures ms[i].ty in t.node && ShapeOf(t, e).fields[i].ty == ShapeOf(t, ms[i].ty) {
        assert ms[i].ty in Parts(t.node[e]);
      }
    case Func(ret, args) =>
      forall i | 0 <= i < |args| ensures args[i] in t.node && ShapeOf(t, e).args[i] == ShapeOf(t, args[i]) {
        assert args[i] in Parts(t.node[e]);
      }
    case _ =>
  }

  /** The layout of a part, if it has one. */
  function LayoutAt(t: Types, r: Ref): Layout
    requires t.Ok()
  {
    if r in t.node && Concrete(ShapeOf(t, r)) then LayoutOf(ShapeOf(t, r)) else Layout.Nothing
  }
}
