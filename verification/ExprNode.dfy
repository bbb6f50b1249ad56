/** Expression nodes as the parser holds them, and the rotation done in place on them. */
module ExprNode {
  import opened ExprTree

  class AstExpr {
    var isBinop: bool
    var op: BinopType
    var left: AstExpr?
    var right: AstExpr?
    var scoped: bool
    var primary: Expr   // the content of any other node; the rotation never looks into it
    ghost var Repr: set<AstExpr>

    ghost predicate Valid()
      reads this, Repr
      ensures Valid() ==> this in Repr
      decreases Repr
    {
      && this in Repr
      && (!isBinop ==> !primary.Binop?)
      && (isBinop ==>
            && left != null && right != null
            && left in Repr && left.Repr < Repr && this !in left.Repr && left.Valid()
            && right in Repr && right.Repr < Repr && this !in right.Repr && right.Valid()
            && left.Repr !! right.Repr)
    }

    /** The tree below this node. */
    function Tree(): (e: Expr)
      requires Valid()
      reads this, Repr
      decreases Repr
      ensures e.Binop? == isBinop
    {
      if isBinop then Expr.Binop(op, left.Tree(), right.Tree(), scoped) else primary
    }

    constructor OfPrimary(e: Expr)
      requires !e.Binop?
      ensures Valid() && Tree() == e && Repr == {this}
    {
      isBinop, op, left, right, scoped, primary := false, And, null, null, false, e;
      Repr := {this};
    }

    constructor OfBinop(op: BinopType, left: AstExpr, right: AstExpr)
      requires left.Valid() && right.Valid() && left.Repr !! right.Repr
      ensures Valid() && Repr == {this} + left.Repr + right.Repr && fresh(Repr - left.Repr - right.Repr)
      ensures Tree() == Expr.Binop(op, left.Tree(), right.Tree(), false)
      ensures isBinop && this.left == left && this.right == right
    {
      isBinop, this.op, this.left, this.right, scoped, primary := true, op, left, right, false, NullLit;
      Repr := {this} + left.Repr + right.Repr;
    }

    /** The unscoped binary operators down the left edge from here: all that a rotation above may touch. */
    ghost function LeftEdge(): (s: set<AstExpr>)
      requires Valid()
      reads this, Repr
      decreases Repr
      ensures s <= Repr
    {
      if isBinop && !scoped then {this} + left.LeftEdge() else {}
    }

    /** One step: this node takes over its right child's operator and right side, and the child, now
        on the left, takes this node's operator and left side. */
    method Rotate()
      requires Valid() && isBinop && right.isBinop && !right.scoped
      modifies this, right
      ensures Valid() && isBinop && Repr == old(Repr) && scoped == old(scoped)
      ensures left == old(right) && left.isBinop && !left.scoped && left.left == old(left)
      ensures left.Valid() && left.right != null && left.right.Valid()
      ensures left.right == old(right.left) && left.right.LeftEdge() == old(right.left.LeftEdge())
      ensures op == old(right.op) && right == old(right.right) && right.Tree() == old(right.right.Tree())
      ensures left.Tree() == Expr.Binop(old(op), old(left.Tree()), old(right.left.Tree()), false)
    {
      var pr, pl := left, right;
      var cr, cl := pl.left, pl.right;
      var pb, cb := op, pl.op;
      op := cb;
      right := cl;
      left := pl;
      pl.op := pb;
      pl.right := cr;
      pl.left := pr;
      pl.Repr := {pl} + pr.Repr + cr.Repr;
      assert pl.Valid();
    }

    /** Rotates in place: the same nodes afterwards carry the pushed-down tree. Only this node and the
        left edge of its right child are written to. */
    method PushDown()
      requires Valid() && isBinop
      modifies this, right.LeftEdge()
      ensures Valid() && isBinop && Repr == old(Repr) && scoped == old(scoped)
      ensures Tree() == ExprTree.PushDown(old(Tree()))
      decreases Repr
    {
      if right.scoped {
        return;
      }
      if !right.isBinop || Priority(right.op) > Priority(op) {
        return;
      }
      Rotate();
      left.PushDown();
    }
  }
}
