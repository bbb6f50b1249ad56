/** Types as the nodes of a graph, equality as the analyser decides it, and what it means. A generic
    is a node whose replacement may be filled in after other nodes already point at it. */
module Types {
  import opened Options

  type Ref = nat

  datatype IntType = I8 | I16 | I32 | I64 | U8 | U16 | U32 | U64
  datatype FloatType = F32 | F64
  datatype Primitive = IntOf(kind: IntType) | FloatOf(width: FloatType) | Bool | Void

  datatype Member = Member(name: string, ty: Ref)

  datatype TypeNode =
    | Prim(prim: Primitive)
    | Struct(members: seq<Member>)
    | Func(returning: Ref, args: seq<Ref>)
    | OptionalOf(of: Ref)
    | PointerTo(of: Ref)
    | SliceOf(of: Ref)
    | ArrayOf(length: nat, of: Ref)
    | Generic(replace: Option<Ref>)

  function Parts(n: TypeNode): set<Ref> {
    match n
    case Prim(_) => {}
    case Struct(ms) => set m <- ms :: m.ty
    case Func(r, args) => {r} + set a <- args
    case Generic(None) => {}
    case Generic(Some(r)) => {r}
    case _ => {n.of}
  }

  /** All types of a program, with a depth for each that shows that no type contains itself. */
  datatype Types = Types(node: map<Ref, TypeNode>, depth: map<Ref, nat>)
  {
    ghost predicate Ok() {
      forall r <- node :: r in depth && forall p <- Parts(node[r]) :: p in node && p in depth && depth[p] < depth[r]
    }

    predicate Open(r: Ref) {
      r in node && node[r] == Generic(None)
    }
  }

  // ---------- equality ----------

  function Equals(t: Types, a: Ref, b: Ref): bool
    requires t.Ok() && a in t.node && b in t.node
    decreases t.depth[a] + t.depth[b]
  {
    var m, n := t.node[a], t.node[b];
    if a == b then true
    else if m.Generic? && n.Generic? then
      if m.replace.None? then n.replace == Some(a)
      else if n.replace.None? then m.replace == Some(b)
      else Equals(t, m.replace.value, n.replace.value)
    else if m.Generic? then m.replace.Some? && Equals(t, m.replace.value, b)
    else if n.Generic? then n.replace.Some? && Equals(t, n.replace.value, a)
    else match m
      case Struct(ms) =>
        n.Struct? && |ms| == |n.members| && forall i :: 0 <= i < |ms| ==>
          assert ms[i].ty in Parts(m) && n.members[i].ty in Parts(n);
          ms[i].name == n.members[i].name && Equals(t, ms[i].ty, n.members[i].ty)
      case Prim(p) => n == Prim(p)
      case OptionalOf(x) => n.OptionalOf? && Equals(t, x, n.of)
      case SliceOf(x) => n.SliceOf? && Equals(t, x, n.of)
      case ArrayOf(length, x) => n.ArrayOf? && length == n.length && Equals(t, x, n.of)
      case Func(r, xs) =>
        n.Func? && |xs| == |n.args| && Equals(t, r, n.returning) && forall i :: 0 <= i < |xs| ==>
          assert xs[i] in Parts(m) && n.args[i] in Parts(n);
          Equals(t, xs[i], n.args[i])
      case PointerTo(x) => n.PointerTo? && Equals(t, x, n.of)
  }

  // ---------- what a type stands for ----------

  datatype Field = Field(name: string, ty: Shape)

  /** A type with every replacement carried out. Only generics without one are still told apart by
      where they are. */
  datatype Shape =
    | SPrim(prim: Primitive)
    | SStruct(fields: seq<Field>)
    | SFunc(returning: Shape, args: seq<Shape>)
    | SOptional(of: Shape)
    | SPointer(of: Shape)
    | SSlice(of: Shape)
    | SArray(length: nat, of: Shape)
    | SOpen(generic: Ref)

  function ShapeOf(t: Types, r: Ref): Shape
    requires t.Ok() && r in t.node
    decreases t.depth[r]
  {
    match t.node[r]
    case Prim(p) => SPrim(p)
    case Struct(ms) =>
      SStruct(seq(|ms|, i requires 0 <= i < |ms| =>
        assert ms[i].ty in Parts(t.node[r]);
        Field(ms[i].name, ShapeOf(t, ms[i].ty))))
    case Func(ret, args) =>
      SFunc(ShapeOf(t, ret), seq(|args|, i requires 0 <= i < |args| =>
        assert args[i] in Parts(t.node[r]);
        ShapeOf(t, args[i])))
    case OptionalOf(x) => SOptional(ShapeOf(t, x))
    case PointerTo(x) => SPointer(ShapeOf(t, x))
    case SliceOf(x) => SSlice(ShapeOf(t, x))
    case ArrayOf(n, x) => SArray(n, ShapeOf(t, x))
    case Generic(None) => SOpen(r)
    case Generic(Some(x)) => ShapeOf(t, x)
  }

  /** Types accepted as equal stand for the same thing. */
  lemma {:induction false} EqualSameShape(t: Types, a: Ref, b: Ref)
    requires t.Ok() && a in t.node && b in t.node && Equals(t, a, b)
    ensures ShapeOf(t, a) == ShapeOf(t, b)
    decreases t.depth[a] + t.depth[b]
  {
    var m, n := t.node[a], t.node[b];
    if a == b {
    } else if m.Generic? && n.Generic? {
      if m.replace.Some? && n.replace.Some? {
        EqualSameShape(t, m.replace.value, n.replace.value);
      }
    } else if m.Generic? {
      EqualSameShape(t, m.replace.value, b);
    } else if n.Generic? {
      EqualSameShape(t, n.replace.value, a);
    } else if m.Struct? {
      forall i | 0 <= i < |m.members|
        ensures ShapeOf(t, a).fields[i] == ShapeOf(t, b).fields[i]
      {
        assert m.members[i].ty in Parts(m) && n.members[i].ty in Parts(n);
        EqualSameShape(t, m.members[i].ty, n.members[i].ty);
      }
      assert ShapeOf(t, a).fields == ShapeOf(t, b).fields;
    } else if m.Func? {
      EqualSameShape(t, m.returning, n.returning);
      forall i | 0 <= i < |m.args|
        ensures ShapeOf(t, a).args[i] == ShapeOf(t, b).args[i]
      {
        assert m.args[i] in Parts(m) && n.args[i] in Parts(n);
        EqualSameShape(t, m.args[i], n.args[i]);
      }
      assert ShapeOf(t, a).args == ShapeOf(t, b).args;
    } else if !m.Prim? {
      EqualSameShape(t, m.of, n.of);
    }
  }

  /** A generic replaced by a generic that is replaced by one still open: from the last, equality sees
      only one step. */
  predicate LongChain(t: Types, a: Ref, b: Ref, c: Ref) {
    a in t.node && b in t.node && t.node[a] == Generic(Some(b)) && t.node[b] == Generic(Some(c)) && t.Open(c)
  }

  ghost predicate NoLongChain(t: Types) {
    forall a, b, c :: !LongChain(t, a, b, c)
  }

  lemma {:induction false} OpenShape(t: Types, a: Ref, g: Ref)
    requires t.Ok() && NoLongChain(t) && a in t.node && ShapeOf(t, a) == SOpen(g)
    ensures t.Open(g) && (a == g || t.node[a] == Generic(Some(g)))
    decreases t.depth[a]
  {
    match t.node[a]
    case Generic(Some(x)) =>
      OpenShape(t, x, g);
      assert !LongChain(t, a, x, g);
    case _ =>
  }

  /** No open generic is left in it. */
  predicate Concrete(s: Shape) {
    match s
    case SPrim(_) => true
    case SStruct(fs) => forall i :: 0 <= i < |fs| ==> Concrete(fs[i].ty)
    case SFunc(r, args) => Concrete(r) && forall i :: 0 <= i < |args| ==> Concrete(args[i])
    case SOpen(_) => false
    case _ => Concrete(s.of)
  }

  /** And the other way, if no chain is long or nothing open is met at all. */
  lemma {:induction false} SameShapeEqual(t: Types, a: Ref, b: Ref)
    requires t.Ok() && a in t.node && b in t.node && ShapeOf(t, a) == ShapeOf(t, b)
    requires NoLongChain(t) || Concrete(ShapeOf(t, a))
    ensures Equals(t, a, b)
    decreases t.depth[a] + t.depth[b], 1
  {
    var m, n := t.node[a], t.node[b];
    if a == b {
    } else if t.Open(a) {
      OpenShape(t, b, a);
    } else if t.Open(b) {
      OpenShape(t, a, b);
    } else if m.Generic? {
      SameShapeEqual(t, m.replace.value, if n.Generic? then n.replace.value else b);
    } else if n.Generic? {
      SameShapeEqual(t, n.replace.value, a);
    } else if m.Struct? {
      SameStructsEqual(t, a, b);
    } else if m.Func? {
      SameFuncsEqual(t, a, b);
    } else if !m.Prim? {
      SameShapeEqual(t, m.of, n.of);
    }
  }

  lemma {:induction false} SameStructsEqual(t: Types, a: Ref, b: Ref)
    requires t.Ok() && a in t.node && b in t.node && ShapeOf(t, a) == ShapeOf(t, b)
    requires NoLongChain(t) || Concrete(ShapeOf(t, a))
    requires t.node[a].Struct? && t.node[b].Struct?
    ensures Equals(t, a, b)
    decreases t.depth[a] + t.depth[b], 0
  {
    var ms, ns := t.node[a].members, t.node[b].members;
    assert |ShapeOf(t, a).fields| == |ms| && |ShapeOf(t, b).fields| == |ns|;
    forall i | 0 <= i < |ms|
      ensures ms[i].name == ns[i].name && ms[i].ty in t.node && ns[i].ty in t.node && Equals(t, ms[i].ty, ns[i].ty)
    {
      assert ms[i].ty in Parts(t.node[a]) && ns[i].ty in Parts(t.node[b]);
      assert ShapeOf(t, a).fields[i] == ShapeOf(t, b).fields[i];
      SameShapeEqual(t, ms[i].ty, ns[i].ty);
    }
  }

  lemma {:induction false} SameFuncsEqual(t: Types, a: Ref, b: Ref)
    requires t.Ok() && a in t.node && b in t.node && ShapeOf(t, a) == ShapeOf(t, b)
    requires NoLongChain(t) || Concrete(ShapeOf(t, a))
    requires t.node[a].Func? && t.node[b].Func?
    ensures Equals(t, a, b)
    decreases t.depth[a] + t.depth[b], 0
  {
    var xs, ys := t.node[a].args, t.node[b].args;
    assert |ShapeOf(t, a).args| == |xs| && |ShapeOf(t, b).args| == |ys|;
    SameShapeEqual(t, t.node[a].returning, t.node[b].returning);
    forall i | 0 <= i < |xs|
      ensures xs[i] in t.node && ys[i] in t.node && Equals(t, xs[i], ys[i])
    {
      assert xs[i] in Parts(t.node[a]) && ys[i] in Parts(t.node[b]);
      assert ShapeOf(t, a).args[i] == ShapeOf(t, b).args[i];
      SameShapeEqual(t, xs[i], ys[i]);
    }
  }

  ghost predicate Exact(t: Types)
    requires t.Ok()
  {
    forall a, b | a in t.node && b in t.node :: Equals(t, a, b) <==> ShapeOf(t, a) == ShapeOf(t, b)
  }

  /** Equality is equality of shapes for all types exactly when no generic leads to an open one by way
      of another generic. */
  lemma EqualityExact(t: Types)
    requires t.Ok()
    ensures Exact(t) <==> NoLongChain(t)
  {
    if NoLongChain(t) {
      forall a, b | a in t.node && b in t.node
        ensures Equals(t, a, b) <==> ShapeOf(t, a) == ShapeOf(t, b)
      {
        if Equals(t, a, b) {
          EqualSameShape(t, a, b);
        }
        if ShapeOf(t, a) == ShapeOf(t, b) {
          SameShapeEqual(t, a, b);
        }
      }
    }
    forall a, b, c | LongChain(t, a, b, c)
      ensures !Exact(t)
    {
      assert b in Parts(t.node[a]) && c in Parts(t.node[b]);
      assert ShapeOf(t, a) == ShapeOf(t, c) && !Equals(t, c, a);
    }
  }

  /** A chain of three: from the open end, equality does not see the far one, which stands for it. */
  lemma LongChainDiffers()
    ensures var t := Types(map[0 := Generic(None), 1 := Generic(Some(0)), 2 := Generic(Some(1))], map[0 := 0, 1 := 1, 2 := 2]);
      t.Ok() && LongChain(t, 2, 1, 0) && ShapeOf(t, 0) == ShapeOf(t, 2) && !Equals(t, 0, 2)
  {
    var t := Types(map[0 := Generic(None), 1 := Generic(Some(0)), 2 := Generic(Some(1))], map[0 := 0, 1 := 1, 2 := 2]);
    assert Parts(t.node[0]) == {} && Parts(t.node[1]) == {0} && Parts(t.node[2]) == {1};
    assert ShapeOf(t, 1) == SOpen(0);
  }

  /** Every replacement chain ends in a type of its own, at any depth. */
  ghost predicate Closed(t: Types) {
    forall r <- t.node :: !t.Open(r)
  }

  lemma ClosedIsExact(t: Types)
    requires t.Ok() && Closed(t)
    ensures Exact(t)
  {
    EqualityExact(t);
  }

  lemma EqualityIsEquivalence(t: Types, a: Ref, b: Ref, c: Ref)
    requires t.Ok() && NoLongChain(t) && a in t.node && b in t.node && c in t.node
    ensures Equals(t, a, a)
    ensures Equals(t, a, b) <==> Equals(t, b, a)
    ensures Equals(t, a, b) && Equals(t, b, c) ==> Equals(t, a, c)
  {
    EqualityExact(t);
  }

  // ---------- layout ----------

  datatype Layout =
    | Bits(width: nat) | FloatBits | DoubleBits | Nothing
    | Fields(elements: seq<Layout>)
    | Items(of: Layout, length: nat)
    | AddressOf(to: Layout)
    | Code(returning: Layout, params: seq<Layout>)

  function PrimLayout(p: Primitive): Layout {
    match p
    case Bool => Bits(1)
    case Void => Nothing
    case FloatOf(F32) => FloatBits
    case FloatOf(F64) => DoubleBits
    case IntOf(I8) => Bits(8)
    case IntOf(U8) => Bits(8)
    case IntOf(I16) => Bits(16)
    case IntOf(U16) => Bits(16)
    case IntOf(I32) => Bits(32)
    case IntOf(U32) => Bits(32)
    case IntOf(I64) => Bits(64)
    case IntOf(U64) => Bits(64)
  }

  function LayoutOf(s: Shape): Layout
    requires Concrete(s)
  {
    match s
    case SPrim(p) => PrimLayout(p)
    case SStruct(fs) => Fields(seq(|fs|, i requires 0 <= i < |fs| => LayoutOf(fs[i].ty)))
    case SFunc(r, args) => AddressOf(Code(LayoutOf(r), seq(|args|, i requires 0 <= i < |args| => LayoutOf(args[i]))))
    case SOptional(x) => Fields([Bits(1), LayoutOf(x)])
    case SPointer(x) => AddressOf(LayoutOf(x))
    case SSlice(x) => Fields([Bits(64), AddressOf(LayoutOf(x))])
    case SArray(n, x) => Items(LayoutOf(x), n)
  }

  /** The LLVM type of a type depends on what the type stands for and on nothing else. An open generic
      aborts the compiler. */
  method ResolveType(t: Types, r: Ref) returns (l: Layout)
    requires t.Ok() && r in t.node && Concrete(ShapeOf(t, r))
    ensures l == LayoutOf(ShapeOf(t, r))
    decreases t.depth[r]
  {
    ghost var shape := ShapeOf(t, r);
    match t.node[r] {
      case Struct(ms) =>
        var elements: seq<Layout> := [];
        for i := 0 to |ms|
          invariant |elements| == i && forall k :: 0 <= k < i ==> elements[k] == LayoutOf(shape.fields[k].ty)
        {
          assert ms[i].ty in Parts(t.node[r]) && shape.fields[i].ty == ShapeOf(t, ms[i].ty);
          var element := ResolveType(t, ms[i].ty);
          elements := elements + [element];
        }
        return Fields(elements);
      case Func(ret, args) =>
        var params: seq<Layout> := [];
        for i := 0 to |args|
          invariant |params| == i && forall k :: 0 <= k < i ==> params[k] == LayoutOf(shape.args[k])
        {
          assert args[i] in Parts(t.node[r]) && shape.args[i] == ShapeOf(t, args[i]);
          var param := ResolveType(t, args[i]);
          params := params + [param];
        }
        var returning := ResolveType(t, ret);
        assert LayoutOf(shape).to.params == params;
        return AddressOf(Code(returning, params));
      case Prim(p) =>
        return PrimLayout(p);
      case OptionalOf(x) =>
        var of := ResolveType(t, x);
        return Fields([Bits(1), of]);
      case SliceOf(x) =>
        var of := ResolveType(t, x);
        return Fields([Bits(64), AddressOf(of)]);
      case ArrayOf(n, x) =>
        var of := ResolveType(t, x);
        return Items(of, n);
      case PointerTo(x) =>
        var to := ResolveType(t, x);
        return AddressOf(to);
      case Generic(Some(x)) =>
        l := ResolveType(t, x);
    }
  }

  /** Types accepted as equal have the same layout, and one can be lowered if the other can. */
  lemma EqualSameLayout(t: Types, a: Ref, b: Ref)
    requires t.Ok() && a in t.node && b in t.node && Equals(t, a, b)
    ensures Concrete(ShapeOf(t, a)) <==> Concrete(ShapeOf(t, b))
    ensures Concrete(ShapeOf(t, a)) ==> LayoutOf(ShapeOf(t, a)) == LayoutOf(ShapeOf(t, b))
  {
    EqualSameShape(t, a, b);
  }

  // ---------- filling in a replacement ----------

  /** No generic can be reached. */
  predicate Fixed(t: Types, r: Ref)
    requires t.Ok() && r in t.node
    decreases t.depth[r]
  {
    !t.node[r].Generic? && forall p <- Parts(t.node[r]) :: Fixed(t, p)
  }

  lemma {:induction false} FixedIsConcrete(t: Types, r: Ref)
    requires t.Ok() && r in t.node && Fixed(t, r)
    ensures Concrete(ShapeOf(t, r))
    decreases t.depth[r]
  {
    forall p | p in Parts(t.node[r]) ensures Concrete(ShapeOf(t, p)) {
      FixedIsConcrete(t, p);
    }
    match t.node[r]
    case Struct(ms) =>
      assert forall m <- ms :: m.ty in Parts(t.node[r]);
    case Func(ret, args) =>
      assert ret in Parts(t.node[r]) && forall a <- args :: a in Parts(t.node[r]);
    case _ =>
  }

  /** What does not reach a generic keeps its shape whatever happens to generics. */
  lemma {:induction false} FixedKeepsShape(t: Types, t': Types, r: Ref)
    requires t.Ok() && t'.Ok() && r in t.node && Fixed(t, r)
    requires forall x <- t.node :: x in t'.node && (!t.node[x].Generic? ==> t'.node[x] == t.node[x])
    ensures Fixed(t', r) && ShapeOf(t', r) == ShapeOf(t, r)
    decreases t.depth[r]
  {
    forall p | p in Parts(t.node[r])
      ensures p in t'.node && Fixed(t', p) && ShapeOf(t', p) == ShapeOf(t, p)
    {
      FixedKeepsShape(t, t', p);
    }
    match t.node[r]
    case Struct(ms) =>
      forall i | 0 <= i < |ms| ensures ShapeOf(t, r).fields[i] == ShapeOf(t', r).fields[i] {
        assert ms[i].ty in Parts(t.node[r]);
      }
      assert ShapeOf(t, r).fields == ShapeOf(t', r).fields;
    case Func(ret, args) =>
      forall i | 0 <= i < |args| ensures ShapeOf(t, r).args[i] == ShapeOf(t', r).args[i] {
        assert args[i] in Parts(t.node[r]);
      }
      assert ShapeOf(t, r).args == ShapeOf(t', r).args;
    case _ =>
  }
}
