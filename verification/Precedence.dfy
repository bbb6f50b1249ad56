/** Which operator binds tighter, as a list of classes of operators, and what the parser makes of it. */
module Precedence {
  import opened ExprTree
  import opened Grammar
  import opened Chains
  import opened Reading

  /** From the loosest to the tightest. `%` is among the comparisons. */
  const CLASSES: seq<set<BinopType>> := [
    {And, Or},
    {Eq, Neq, Gt, Ge, Lt, Le, Mod},
    {Add, Sub},
    {BitOr},
    {Mul, Div},
    {BitAnd, Shl, Shr, Xor}
  ]

  /** `op` is of a tighter class than `other`. */
  predicate Tighter(op: BinopType, other: BinopType) {
    exists i, j :: 0 <= i < j < |CLASSES| && other in CLASSES[i] && op in CLASSES[j]
  }

  function ClassOf(op: BinopType): (i: nat)
    ensures i < |CLASSES| && op in CLASSES[i]
    ensures forall j :: 0 <= j < |CLASSES| && op in CLASSES[j] ==> j == i
  {
    match op
    case And => 0
    case Or => 0
    case Add => 2
    case Sub => 2
    case BitOr => 3
    case Mul => 4
    case Div => 4
    case BitAnd => 5
    case Shl => 5
    case Shr => 5
    case Xor => 5
    case _ => 1
  }

  lemma TighterIsHigher(op: BinopType, other: BinopType)
    ensures Tighter(op, other) <==> Priority(op) > Priority(other)
  {
    var i, j := ClassOf(other), ClassOf(op);
    assert Tighter(op, other) <==> i < j;
  }

  // ---------- two operators ----------

  /** Of two operators between three operands the second takes the middle one if and only if it is of a
      tighter class; the first takes it otherwise. */
  lemma MiddleOperand(a: Operand, o1: BinopType, b: Operand, o2: BinopType, c: Operand, stop: Stop, rest: seq<Token>)
    requires WfOperand(a) && WfOperand(b) && WfOperand(c) && rest != [] && Stops(stop, rest[0])
    ensures var ts := OperandToks(a) + [OpTok(o1)] + OperandToks(b) + [OpTok(o2)] + OperandToks(c) + rest;
      var x, y, z := OperandTree(a), OperandTree(b), OperandTree(c);
      && (ParseExpr(ts, stop) == Ok(Binop(o1, x, Binop(o2, y, z, false), false), rest) <==> Tighter(o2, o1))
      && (ParseExpr(ts, stop) == Ok(Binop(o2, Binop(o1, x, y, false), z, false), rest) <==> !Tighter(o2, o1))
  {
    var chain := More(a, o1, More(b, o2, One(c)));
    ChainReads(chain, stop, rest);
    MiddleToks(a, o1, b, o2, c);
    MiddleTree(OperandTree(a), o1, OperandTree(b), o2, OperandTree(c));
    TreeOfMore(b, o2, One(c));
    TreeOfMore(a, o1, More(b, o2, One(c)));
  }

  lemma MiddleToks(a: Operand, o1: BinopType, b: Operand, o2: BinopType, c: Operand)
    ensures Toks(More(a, o1, More(b, o2, One(c)))) ==
            OperandToks(a) + [OpTok(o1)] + OperandToks(b) + [OpTok(o2)] + OperandToks(c)
  {
    var last := More(b, o2, One(c));
    assert Toks(last) == OperandToks(b) + [OpTok(o2)] + OperandToks(c) by { assert Toks(One(c)) == OperandToks(c); }
    assert Toks(More(a, o1, last)) == OperandToks(a) + [OpTok(o1)] + Toks(last);
    Regroup(OperandToks(a) + [OpTok(o1)], OperandToks(b), [OpTok(o2)], OperandToks(c), []);
    Regroup(OperandToks(b), [OpTok(o2)], OperandToks(c), [], []);
  }

  lemma MiddleTree(x: Expr, o1: BinopType, y: Expr, o2: BinopType, z: Expr)
    requires !x.Open() && !y.Open() && !z.Open()
    ensures var inner := PushDown(Binop(o2, y, z, false));
      PushDown(Binop(o1, x, inner, false)) ==
      if Tighter(o2, o1) then Binop(o1, x, Binop(o2, y, z, false), false) else Binop(o2, Binop(o1, x, y, false), z, false)
  {
    TighterIsHigher(o2, o1);
    assert PushDown(Binop(o2, y, z, false)) == Binop(o2, y, z, false);
    assert PushDown(Binop(o1, x, y, false)) == Binop(o1, x, y, false);
  }

  // ---------- any number of operators ----------

  /** On the left of an operator there are none of a looser class, on its right only tighter ones. */
  predicate ByClass(e: Expr) {
    e.Open() ==>
      && ByClass(e.left) && ByClass(e.right)
      && (forall op <- Ops(e.left) :: !Tighter(e.op, op))
      && (forall op <- Ops(e.right) :: Tighter(op, e.op))
  }

  lemma {:induction false} PrecFormByClass(e: Expr)
    ensures PrecForm(e) <==> ByClass(e)
  {
    if e.Open() {
      PrecFormByClass(e.left);
      PrecFormByClass(e.right);
      forall op ensures Tighter(e.op, op) <==> Priority(e.op) > Priority(op) {
        TighterIsHigher(e.op, op);
      }
      forall op ensures Tighter(op, e.op) <==> Priority(op) > Priority(e.op) {
        TighterIsHigher(op, e.op);
      }
    }
  }

  /** Whatever is read, operators nest by class, and to the left within a class; and no other tree over
      the same operands and operators nests so. */
  lemma ReadByClass(ts: seq<Token>, stop: Stop, other: Expr)
    requires ParseExpr(ts, stop).Ok?
    ensures var e := ParseExpr(ts, stop).value;
      ByClass(e) && (ByClass(other) && Operands(other) == Operands(e) && Ops(other) == Ops(e) ==> other == e)
  {
    var e := ParseExpr(ts, stop).value;
    var c := OnlySentences(ts, stop, Start);
    TreeIsPrecedenceForm(c, e);
    PrecFormByClass(e);
    PrecFormByClass(other);
    TreeIsPrecedenceForm(c, other);
  }
}
