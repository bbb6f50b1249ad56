/** Expression trees, operator precedence, and the rotation that repairs it. */
module ExprTree {
  import opened Sequences

  datatype BinopType =
    | And | Mod | Add | Sub | Mul | Div | Eq | Neq | Gt | Ge | Lt | Le | Or
    | BitAnd | BitOr | Shr | Shl | Xor

  datatype Segment = Ident(name: string) | NullSegment | SizeofSegment | DerefSegment

  type Path = seq<Segment>

  /** `scoped` marks a tree that was written in parentheses; it only matters on binary operators. */
  datatype Expr =
    | IntLit(value: nat)
    | BoolLit(truth: bool)
    | NullLit
    | Local(path: Path)
    | Inner(of: Expr, path: Path)
    | Call(callee: Expr, args: seq<Expr>)
    | Index(of: Expr, idx: Expr)
    | As(of: Expr, ty: Path)
    | AsAuto(of: Expr)
    | Binop(op: BinopType, left: Expr, right: Expr, scoped: bool)
  {
    /** A binary operator that the rotation may take apart. */
    predicate Open() {
      Binop? && !scoped
    }
  }

  /** The table names no priority for `%`, which leaves it at zero. */
  function Priority(op: BinopType): int {
    match op
    case BitAnd => 30
    case BitOr => 15
    case Shr => 30
    case Shl => 30
    case Xor => 30
    case Mul => 20
    case Div => 20
    case Add => 10
    case Sub => 10
    case Or => -1
    case And => -1
    case Eq => 0
    case Neq => 0
    case Gt => 0
    case Ge => 0
    case Lt => 0
    case Le => 0
    case Mod => 0
  }

  // ---------- a tree read from left to right ----------

  function Operands(e: Expr): (xs: seq<Expr>)
    ensures |xs| == |Ops(e)| + 1
  {
    if e.Open() then Operands(e.left) + Operands(e.right) else [e]
  }

  function Ops(e: Expr): seq<BinopType> {
    if e.Open() then Ops(e.left) + [e.op] + Ops(e.right) else []
  }

  predicate AllAtLeast(ops: seq<BinopType>, p: int) {
    forall i :: 0 <= i < |ops| ==> Priority(ops[i]) >= p
  }

  /** Operators bind by priority, and to the left among equals. */
  predicate PrecForm(e: Expr) {
    e.Open() ==>
      && PrecForm(e.left) && PrecForm(e.right)
      && AllAtLeast(Ops(e.left), Priority(e.op))
      && AllAtLeast(Ops(e.right), Priority(e.op) + 1)
  }

  /** In such a tree no operator has a lower priority than the root's. */
  lemma RootIsLowest(e: Expr)
    requires e.Open() && PrecForm(e)
    ensures AllAtLeast(Ops(e), Priority(e.op))
  {
  }

  lemma {:induction false} SamePrecForm(a: Expr, b: Expr)
    requires PrecForm(a) && PrecForm(b) && Operands(a) == Operands(b) && Ops(a) == Ops(b)
    ensures a == b
    decreases a
  {
    if a.Open() {
      assert |Ops(b)| > 0;
      SplitAt(a);
      SplitAt(b);
      // The root is the last operator of lowest priority, so both trees have it at the same place.
      RootIsLowest(a);
      RootIsLowest(b);
      RootPlace(a);
      RootPlace(b);
      RootIsLast(a);
      RootIsLast(b);
      assert |Ops(a.left)| == |Ops(b.left)|;
      SamePrecForm(a.left, b.left);
      SamePrecForm(a.right, b.right);
    } else {
      assert Operands(a) == [a] && |Ops(a)| == 0;
      assert !b.Open();
    }
  }

  /** Where the root's operator is, and what comes after it. */
  lemma RootPlace(e: Expr)
    requires e.Open()
    ensures var i := |Ops(e.left)|; |Ops(e)| == i + 1 + |Ops(e.right)| && Ops(e)[i] == e.op
  {
  }

  lemma OpAfterRoot(e: Expr, k: nat)
    requires e.Open() && |Ops(e.left)| < k < |Ops(e)|
    ensures var m := k - |Ops(e.left)| - 1; m < |Ops(e.right)| && Ops(e)[k] == Ops(e.right)[m]
  {
  }

  lemma RootIsLast(e: Expr)
    requires e.Open() && PrecForm(e)
    ensures forall k :: |Ops(e.left)| < k < |Ops(e)| ==> Priority(Ops(e)[k]) > Priority(e.op)
  {
    var p, right := Priority(e.op), Ops(e.right);
    assert AllAtLeast(right, p + 1);
    forall k | |Ops(e.left)| < k < |Ops(e)| ensures Priority(Ops(e)[k]) > p {
      OpAfterRoot(e, k);
    }
  }

  /** How the two readings of an open tree split around its root. */
  lemma SplitAt(e: Expr)
    requires e.Open()
    ensures var i := |Ops(e.left)|;
      && Ops(e)[..i] == Ops(e.left) && Ops(e)[i] == e.op && Ops(e)[i + 1..] == Ops(e.right)
      && Operands(e)[..i + 1] == Operands(e.left) && Operands(e)[i + 1..] == Operands(e.right)
  {
    assert Ops(e) == Ops(e.left) + [e.op] + Ops(e.right);
    assert Operands(e) == Operands(e.left) + Operands(e.right);
  }

  // ---------- the rotation ----------

  /** `e` was built with the whole rest of the expression on its right; its operator moves down the
      left edge of that side for as long as the operators there do not bind tighter. */
  function PushDown(e: Expr): Expr
    requires e.Binop?
    decreases e.right
  {
    var r := e.right;
    if !r.Open() || Priority(r.op) > Priority(e.op) then e
    else Binop(r.op, PushDown(Binop(e.op, e.left, r.left, r.scoped)), r.right, e.scoped)
  }

  /** Nothing is lost, added or reordered. */
  lemma {:induction false} PushDownKeeps(e: Expr)
    requires e.Open()
    ensures PushDown(e).Open() && Operands(PushDown(e)) == Operands(e) && Ops(PushDown(e)) == Ops(e)
    decreases e.right
  {
    var r := e.right;
    if r.Open() && Priority(r.op) <= Priority(e.op) {
      var inner := Binop(e.op, e.left, r.left, r.scoped);
      PushDownKeeps(inner);
      var p := PushDown(e);
      assert Operands(p) == (Operands(e.left) + Operands(r.left)) + Operands(r.right);
      assert Operands(e) == Operands(e.left) + (Operands(r.left) + Operands(r.right));
      assert Ops(p) == (Ops(e.left) + [e.op] + Ops(r.left)) + [r.op] + Ops(r.right);
      assert Ops(e) == Ops(e.left) + [e.op] + (Ops(r.left) + [r.op] + Ops(r.right));
    }
  }

  /** With precedence right on its right side, the rotation makes the whole tree right exactly when
      the left side is right and binds at least as tightly as the operator. */
  lemma {:induction false} PushDownForm(e: Expr)
    requires e.Open() && PrecForm(e.right)
    ensures PrecForm(PushDown(e)) <==> PrecForm(e.left) && AllAtLeast(Ops(e.left), Priority(e.op))
    decreases e.right
  {
    var r := e.right;
    if r.Open() {
      RootIsLowest(r);
      if Priority(r.op) <= Priority(e.op) {
        var inner := Binop(e.op, e.left, r.left, r.scoped);
        PushDownForm(inner);
        PushDownKeeps(inner);
        assert Ops(inner) == Ops(e.left) + [e.op] + Ops(r.left);
      }
    }
  }

  // ---------- the reference: operands taken one by one, from the left ----------

  /** The tree so far, and one more operator with its right operand. */
  function Insert(t: Expr, op: BinopType, x: Expr): Expr {
    if t.Open() && Priority(t.op) < Priority(op) then t.(right := Insert(t.right, op, x))
    else Binop(op, t, x, false)
  }

  lemma {:induction false} InsertForm(t: Expr, op: BinopType, x: Expr)
    requires PrecForm(t) && !x.Open()
    ensures var r := Insert(t, op, x);
      r.Open() && PrecForm(r) && Operands(r) == Operands(t) + [x] && Ops(r) == Ops(t) + [op]
    decreases t
  {
    if t.Open() {
      RootIsLowest(t);
      if Priority(t.op) < Priority(op) {
        InsertForm(t.right, op, x);
        Associate(Operands(t.left), Operands(t.right), [x]);
        Associate(Ops(t.left) + [t.op], Ops(t.right), [op]);
      }
    }
  }

  /** The left-associative precedence parse of `first ops[0] xs[0] ops[1] xs[1] ...`. */
  function Reference(first: Expr, ops: seq<BinopType>, xs: seq<Expr>): Expr
    requires |ops| == |xs|
    decreases |ops|
  {
    if ops == [] then first
    else Insert(Reference(first, ops[..|ops| - 1], xs[..|xs| - 1]), ops[|ops| - 1], xs[|xs| - 1])
  }

  lemma {:induction false} ReferenceForm(first: Expr, ops: seq<BinopType>, xs: seq<Expr>)
    requires |ops| == |xs| && !first.Open() && forall i :: 0 <= i < |xs| ==> !xs[i].Open()
    ensures var r := Reference(first, ops, xs); PrecForm(r) && Operands(r) == [first] + xs && Ops(r) == ops
    decreases |ops|
  {
    if ops != [] {
      var n := |ops| - 1;
      ReferenceForm(first, ops[..n], xs[..n]);
      InsertForm(Reference(first, ops[..n], xs[..n]), ops[n], xs[n]);
      Associate([first], xs[..n], [xs[n]]);
      FrontAndLast(ops);
      FrontAndLast(xs);
    }
  }

  /** What the parser does with one operand, one operator and the tree of everything after it is
      what the reference does. */
  lemma PushDownIsReference(first: Expr, op: BinopType, x: Expr, ops: seq<BinopType>, xs: seq<Expr>)
    requires |ops| == |xs| && !first.Open() && !x.Open() && forall i :: 0 <= i < |xs| ==> !xs[i].Open()
    ensures PushDown(Binop(op, first, Reference(x, ops, xs), false)) == Reference(first, [op] + ops, [x] + xs)
  {
    var right := Reference(x, ops, xs);
    ReferenceForm(x, ops, xs);
    var e := Binop(op, first, right, false);
    PushDownKeeps(e);
    PushDownForm(e);
    ReferenceForm(first, [op] + ops, [x] + xs);
    assert Operands(e) == [first] + ([x] + xs) && Ops(e) == [op] + ops;
    SamePrecForm(PushDown(e), Reference(first, [op] + ops, [x] + xs));
  }
}
