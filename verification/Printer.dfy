/** The expression printer, at the level of tokens, and what parsing its output gives. */
module Printer {
  import opened ExprTree
  import opened Grammar
  import opened Chains
  import opened Reading

  // ---------- what is printed ----------

  /** The trees that the parser can build, without index expressions: those are printed with the name
      of a placeholder in place of the index. */
  predicate Printable(e: Expr) {
    match e
    case Local(p) => p != [] && p[0].Ident?
    case Inner(of, p) => Printable(of) && p != []
    case Call(callee, args) => Printable(callee) && forall i :: 0 <= i < |args| ==> Printable(args[i])
    case Index(_, _) => false
    case As(of, ty) => Printable(of) && ty != [] && ty[0].Ident?
    case AsAuto(of) => Printable(of)
    case Binop(_, l, r, _) => Printable(l) && Printable(r)
    case _ => true
  }

  function Printed(e: Expr): seq<Token>
    requires Printable(e)
    decreases e, 2
  {
    match e
    case IntLit(v) => [IntTok(v)]
    case BoolLit(b) => [BoolTok(b)]
    case NullLit => [NullTok]
    case Local(p) => PathToks(p)
    case Inner(of, p) => [OpenRound] + Printed(of) + [CloseRound] + [Dot] + PathToks(p)
    case Call(callee, _) => Printed(callee) + [OpenRound] + PrintedArgs(e, 0) + [CloseRound]
    case As(of, ty) => Printed(of) + [AsTok] + PathToks(ty)
    case AsAuto(of) => Printed(of) + [AsTok, AutoTok]
    case Binop(op, l, r, _) => [OpenRound] + Printed(l) + [OpTok(op)] + Printed(r) + [CloseRound]
  }

  /** The arguments from the `k`-th on. */
  function PrintedArgs(call: Expr, k: nat): seq<Token>
    requires Printable(call) && call.Call? && k <= |call.args|
    decreases call, 1, |call.args| - k
  {
    if k == |call.args| then []
    else (if k == 0 then [] else [Comma]) + Printed(call.args[k]) + PrintedArgs(call, k + 1)
  }

  lemma Joined(a: seq<Token>, b: seq<Token>, c: seq<Token>, d: seq<Token>, e: seq<Token>, f: seq<Token>)
    ensures a + b + c + d + e + f == a + (b + c + d + e + f)
    ensures a + b + c + d + e == a + (b + c + d + e)
  {
  }

  lemma ArgsTurn(out: seq<Token>, call: Expr, i: nat)
    requires Printable(call) && call.Call? && i < |call.args|
    ensures var comma := if i == 0 then [] else [Comma];
      (out + comma) + Printed(call.args[i]) + PrintedArgs(call, i + 1) == out + PrintedArgs(call, i)
    ensures out + [] == out
  {
    var comma := if i == 0 then [] else [Comma];
    assert PrintedArgs(call, i) == comma + Printed(call.args[i]) + PrintedArgs(call, i + 1);
    Regroup(out, comma, Printed(call.args[i]), PrintedArgs(call, i + 1), []);
    Regroup(comma, Printed(call.args[i]), PrintedArgs(call, i + 1), [], []);
  }

  class Printer {
    var out: seq<Token>

    constructor ()
      ensures out == []
    {
      out := [];
    }

    method Put(t: Token)
      modifies this
      ensures out == old(out) + [t]
    {
      out := out + [t];
    }

    method PrintPath(p: Path)
      modifies this
      ensures out == old(out) + PathToks(p)
    {
      var i := 0;
      ghost var all := out + PathToks(p);
      while i < |p|
        invariant 0 <= i <= |p|
        invariant all == out + (if i == 0 || i == |p| then [] else [Dot]) + PathToks(p[i..])
      {
        if i != 0 {
          Put(Dot);
        }
        Put(SegToken(p[i]));
        assert p[i..][1..] == p[i + 1..];
        i := i + 1;
      }
    }

    method PrintExpr(e: Expr)
      requires Printable(e)
      modifies this
      ensures out == old(out) + Printed(e)
      decreases e, 2
    {
      match e {
        case IntLit(v) => Put(IntTok(v));
        case BoolLit(b) => Put(BoolTok(b));
        case NullLit => Put(NullTok);
        case Local(p) => PrintPath(p);
        case Inner(_, _) => PrintInner(e);
        case Call(_, _) => PrintCall(e);
        case As(of, ty) =>
          PrintExpr(of);
          Put(AsTok);
          PrintPath(ty);
        case AsAuto(of) =>
          PrintExpr(of);
          Put(AsTok);
          Put(AutoTok);
        case Binop(_, _, _, _) => PrintBinop(e);
      }
    }

    method PrintInner(e: Expr)
      requires Printable(e) && e.Inner?
      modifies this
      ensures out == old(out) + Printed(e)
      decreases e, 1
    {
      Put(OpenRound);
      PrintExpr(e.of);
      Put(CloseRound);
      Put(Dot);
      PrintPath(e.path);
      Joined(old(out), [OpenRound], Printed(e.of), [CloseRound], [Dot], PathToks(e.path));
    }

    method PrintBinop(e: Expr)
      requires Printable(e) && e.Binop?
      modifies this
      ensures out == old(out) + Printed(e)
      decreases e, 1
    {
      Put(OpenRound);
      PrintExpr(e.left);
      Put(OpTok(e.op));
      PrintExpr(e.right);
      Put(CloseRound);
      Joined(old(out), [OpenRound], Printed(e.left), [OpTok(e.op)], Printed(e.right), [CloseRound]);
    }

    method PrintCall(e: Expr)
      requires Printable(e) && e.Call?
      modifies this
      ensures out == old(out) + Printed(e)
      decreases e, 1
    {
      PrintExpr(e.callee);
      Put(OpenRound);
      PrintArgs(e);
      Put(CloseRound);
      Joined(old(out), Printed(e.callee), [OpenRound], PrintedArgs(e, 0), [CloseRound], []);
    }

    method PrintArgs(call: Expr)
      requires Printable(call) && call.Call?
      modifies this
      ensures out == old(out) + PrintedArgs(call, 0)
      decreases call, 0, 1
    {
      var i := 0;
      while i < |call.args|
        invariant 0 <= i <= |call.args|
        invariant old(out) + PrintedArgs(call, 0) == out + PrintedArgs(call, i)
      {
        PrintArg(call, i);
        i := i + 1;
      }
    }

    method PrintArg(call: Expr, i: nat)
      requires Printable(call) && call.Call? && i < |call.args|
      modifies this
      ensures out + PrintedArgs(call, i + 1) == old(out) + PrintedArgs(call, i)
      decreases call, 0, 0
    {
      if i != 0 {
        Put(Comma);
      }
      PrintExpr(call.args[i]);
      ArgsTurn(old(out), call, i);
    }
  }

  // ---------- printed trees as sentences ----------

  function Written(e: Expr): Operand
    requires Printable(e)
    decreases e, 2
  {
    match e
    case IntLit(v) => Lit(IntAtom(v))
    case BoolLit(b) => Lit(BoolAtom(b))
    case NullLit => Lit(NullAtom)
    case Local(p) => Lit(PathAtom(p))
    case Inner(of, p) => Dotted(Paren(One(Written(of))), p)
    case Call(callee, _) => Called(Written(callee), WrittenArgs(e, 0))
    case As(of, ty) => Cast(Written(of), ty)
    case AsAuto(of) => CastAuto(Written(of))
    case Binop(op, l, r, _) => Paren(More(Written(l), op, One(Written(r))))
  }

  function WrittenArgs(call: Expr, k: nat): Args
    requires Printable(call) && call.Call? && k <= |call.args|
    decreases call, 1, |call.args| - k
  {
    if k == |call.args| then NoArgs
    else if k + 1 == |call.args| then OneArg(One(Written(call.args[k])))
    else MoreArgs(One(Written(call.args[k])), WrittenArgs(call, k + 1))
  }

  /** The same tree with every binary operator marked as written in parentheses. */
  function Scoped(e: Expr): Expr
    decreases e, 2
  {
    match e
    case Inner(of, p) => Inner(Scoped(of), p)
    case Call(callee, _) => Call(Scoped(callee), ScopedArgs(e, 0))
    case Index(of, idx) => Index(Scoped(of), Scoped(idx))
    case As(of, ty) => As(Scoped(of), ty)
    case AsAuto(of) => AsAuto(Scoped(of))
    case Binop(op, l, r, _) => Binop(op, Scoped(l), Scoped(r), true)
    case _ => e
  }

  function ScopedArgs(call: Expr, k: nat): (r: seq<Expr>)
    requires call.Call? && k <= |call.args|
    ensures |r| == |call.args| - k
    decreases call, 1, |call.args| - k
  {
    if k == |call.args| then [] else [Scoped(call.args[k])] + ScopedArgs(call, k + 1)
  }

  lemma {:induction false} PrintedIsSentence(e: Expr)
    requires Printable(e)
    ensures WfOperand(Written(e)) && OperandToks(Written(e)) == Printed(e) && OperandTree(Written(e)) == Scoped(e)
    decreases e, 2
  {
    match e
    case Inner(of, p) =>
      PrintedIsSentence(of);
      TreeOfOne(Written(of));
      assert OperandToks(Paren(One(Written(of)))) == [OpenRound] + Printed(of) + [CloseRound];
    case Call(callee, _) =>
      PrintedIsSentence(callee);
      PrintedArgsAreSentences(e, 0);
    case As(of, _) => PrintedIsSentence(of);
    case AsAuto(of) => PrintedIsSentence(of);
    case Binop(op, l, r, _) =>
      PrintedIsSentence(l);
      PrintedIsSentence(r);
      TreeOfMore(Written(l), op, One(Written(r)));
      TreeOfOne(Written(r));
      assert Toks(More(Written(l), op, One(Written(r)))) == Printed(l) + [OpTok(op)] + Printed(r);
      Joined([OpenRound], Printed(l), [OpTok(op)], Printed(r), [CloseRound], []);
    case _ =>
  }

  lemma TreeOfOne(o: Operand)
    ensures Tree(One(o)) == OperandTree(o)
  {
  }

  lemma {:induction false} PrintedArgsAreSentences(call: Expr, k: nat)
    requires Printable(call) && call.Call? && k <= |call.args|
    ensures var args := WrittenArgs(call, k);
      && WfArgs(args) && (args.NoArgs? <==> k == |call.args|) && ArgsTrees(args) == ScopedArgs(call, k)
      && PrintedArgs(call, k) == (if k == 0 || k == |call.args| then [] else [Comma]) + ArgsToks(args)
    decreases call, 1, |call.args| - k
  {
    if k < |call.args| {
      PrintedIsSentence(call.args[k]);
      TreeOfOne(Written(call.args[k]));
      PrintedArgsAreSentences(call, k + 1);
      ArgToks(Written(call.args[k]), WrittenArgs(call, k + 1), if k == 0 then [] else [Comma]);
    }
  }

  lemma ArgToks(o: Operand, tail: Args, comma: seq<Token>)
    ensures ArgsToks(OneArg(One(o))) == OperandToks(o)
    ensures comma + OperandToks(o) + [] == comma + OperandToks(o)
    ensures comma + OperandToks(o) + ([Comma] + ArgsToks(tail)) == comma + ArgsToks(MoreArgs(One(o), tail))
  {
    assert Toks(One(o)) == OperandToks(o);
    Regroup(comma, OperandToks(o), [Comma], ArgsToks(tail), []);
    Regroup(OperandToks(o), [Comma], ArgsToks(tail), [], []);
    Regroup(comma + OperandToks(o), [Comma], ArgsToks(tail), [], []);
  }

  // ---------- the round trip ----------

  lemma PrintThenParse(e: Expr, stop: Stop, rest: seq<Token>)
    requires Printable(e) && rest != [] && Stops(stop, rest[0])
    ensures ParseExpr(Printed(e) + rest, stop) == Ok(Scoped(e), rest)
  {
    PrintedIsSentence(e);
    ChainReads(One(Written(e)), stop, rest);
  }

  /** Forgets which operators were in parentheses. */
  predicate SameButScopes(a: Expr, b: Expr) {
    match a
    case Inner(of, p) => b.Inner? && SameButScopes(of, b.of) && p == b.path
    case Call(callee, args) =>
      && b.Call? && SameButScopes(callee, b.callee) && |args| == |b.args|
      && forall i :: 0 <= i < |args| ==> SameButScopes(args[i], b.args[i])
    case Index(of, idx) => b.Index? && SameButScopes(of, b.of) && SameButScopes(idx, b.idx)
    case As(of, ty) => b.As? && SameButScopes(of, b.of) && ty == b.ty
    case AsAuto(of) => b.AsAuto? && SameButScopes(of, b.of)
    case Binop(op, l, r, _) => b.Binop? && op == b.op && SameButScopes(l, b.left) && SameButScopes(r, b.right)
    case _ => a == b
  }

  lemma {:induction false} ScopedIsSame(a: Expr, b: Expr)
    ensures SameButScopes(a, b) <==> Scoped(a) == Scoped(b)
    decreases a, 2
  {
    match a
    case Inner(of, _) => if b.Inner? { ScopedIsSame(of, b.of); }
    case Call(callee, _) =>
      if b.Call? {
        ScopedIsSame(callee, b.callee);
        if |a.args| == |b.args| {
          ScopedArgsAreSame(a, b, 0);
        } else {
          assert |ScopedArgs(a, 0)| != |ScopedArgs(b, 0)|;
        }
      }
    case Index(of, idx) => if b.Index? { ScopedIsSame(of, b.of); ScopedIsSame(idx, b.idx); }
    case As(of, _) => if b.As? { ScopedIsSame(of, b.of); }
    case AsAuto(of) => if b.AsAuto? { ScopedIsSame(of, b.of); }
    case Binop(_, l, r, _) => if b.Binop? { ScopedIsSame(l, b.left); ScopedIsSame(r, b.right); }
    case _ =>
  }

  lemma {:induction false} ScopedArgsAreSame(a: Expr, b: Expr, k: nat)
    requires a.Call? && b.Call? && |a.args| == |b.args| && k <= |a.args|
    ensures (forall i :: k <= i < |a.args| ==> SameButScopes(a.args[i], b.args[i])) <==> ScopedArgs(a, k) == ScopedArgs(b, k)
    decreases a, 1, |a.args| - k
  {
    if k < |a.args| {
      ScopedIsSame(a.args[k], b.args[k]);
      ScopedArgsAreSame(a, b, k + 1);
      assert ScopedArgs(a, k)[0] == Scoped(a.args[k]) && ScopedArgs(a, k)[1..] == ScopedArgs(a, k + 1);
      assert ScopedArgs(b, k)[0] == Scoped(b.args[k]) && ScopedArgs(b, k)[1..] == ScopedArgs(b, k + 1);
    }
  }

  lemma {:induction false} ScopedKeeps(e: Expr)
    ensures SameButScopes(e, Scoped(e))
    decreases e
  {
    match e
    case Inner(of, _) => ScopedKeeps(of);
    case Call(callee, args) =>
      ScopedKeeps(callee);
      forall i | 0 <= i < |args| ensures SameButScopes(args[i], ScopedArgs(e, 0)[i]) {
        ScopedKeeps(args[i]);
        ScopedArgsAt(e, 0, i);
      }
    case Index(of, idx) => ScopedKeeps(of); ScopedKeeps(idx);
    case As(of, _) => ScopedKeeps(of);
    case AsAuto(of) => ScopedKeeps(of);
    case Binop(_, l, r, _) => ScopedKeeps(l); ScopedKeeps(r);
    case _ =>
  }

  lemma {:induction false} ScopedArgsAt(call: Expr, k: nat, i: nat)
    requires call.Call? && k <= i < |call.args|
    ensures ScopedArgs(call, k)[i - k] == Scoped(call.args[i])
    decreases i - k
  {
    if k < i {
      ScopedArgsAt(call, k + 1, i);
    }
  }

  /** The tree read back is the tree printed, up to scopes. */
  lemma RoundTrip(e: Expr, stop: Stop, rest: seq<Token>)
    requires Printable(e) && rest != [] && Stops(stop, rest[0])
    ensures var r := ParseExpr(Printed(e) + rest, stop);
      r.Ok? && r.rest == rest && SameButScopes(e, r.value)
  {
    PrintThenParse(e, stop, rest);
    ScopedKeeps(e);
  }

  /** Only trees that differ in scopes alone are printed alike. */
  lemma PrintedAlike(a: Expr, b: Expr)
    requires Printable(a) && Printable(b) && Printed(a) == Printed(b)
    ensures SameButScopes(a, b)
  {
    PrintThenParse(a, AtSemicolon, [Semicolon]);
    PrintThenParse(b, AtSemicolon, [Semicolon]);
    ScopedIsSame(a, b);
  }

  // ---------- what was parsed can be printed ----------

  predicate NoIndex(e: Expr) {
    match e
    case Inner(of, _) => NoIndex(of)
    case Call(callee, args) => NoIndex(callee) && forall i :: 0 <= i < |args| ==> NoIndex(args[i])
    case Index(_, _) => false
    case As(of, _) => NoIndex(of)
    case AsAuto(of) => NoIndex(of)
    case Binop(_, l, r, _) => NoIndex(l) && NoIndex(r)
    case _ => true
  }

  lemma {:induction false} OperandsPrintable(e: Expr)
    requires NoIndex(e) && forall x <- Operands(e) :: NoIndex(x) ==> Printable(x)
    ensures Printable(e)
    decreases e
  {
    if e.Open() {
      assert forall x <- Operands(e.left) :: x in Operands(e);
      assert forall x <- Operands(e.right) :: x in Operands(e);
      OperandsPrintable(e.left);
      OperandsPrintable(e.right);
    } else {
      assert e in Operands(e);
    }
  }

  lemma {:induction false} TreePrintable(c: Chain)
    requires WfChain(c) && NoIndex(Tree(c))
    ensures Printable(Tree(c))
    decreases c, 2
  {
    TreeIsPrecedenceForm(c, Tree(c));
    forall x | x in OperandsOf(c) && NoIndex(x) ensures Printable(x) {
      OperandsOfPrintable(c, x);
    }
    OperandsPrintable(Tree(c));
  }

  lemma {:induction false} OperandsOfPrintable(c: Chain, x: Expr)
    requires WfChain(c) && x in OperandsOf(c) && NoIndex(x)
    ensures Printable(x)
    decreases c, 1
  {
    match c
    case One(o) => OperandPrintable(o);
    case More(o, _, rest) =>
      if x == OperandTree(o) {
        OperandPrintable(o);
      } else {
        OperandsOfPrintable(rest, x);
      }
  }

  lemma {:induction false} OperandPrintable(o: Operand)
    requires WfOperand(o) && NoIndex(OperandTree(o))
    ensures Printable(OperandTree(o))
    decreases o, 0
  {
    match o
    case Paren(c) => TreePrintable(c);
    case Called(of, args) =>
      OperandPrintable(of);
      ArgsPrintable(args);
    case Cast(of, _) => OperandPrintable(of);
    case CastAuto(of) => OperandPrintable(of);
    case Dotted(of, _) => OperandPrintable(of);
    case _ =>
  }

  lemma {:induction false} ArgsPrintable(args: Args)
    requires WfArgs(args) && forall i :: 0 <= i < |ArgsTrees(args)| ==> NoIndex(ArgsTrees(args)[i])
    ensures forall i :: 0 <= i < |ArgsTrees(args)| ==> Printable(ArgsTrees(args)[i])
    decreases args, 0
  {
    match args
    case NoArgs =>
    case OneArg(c) =>
      assert ArgsTrees(args)[0] == Tree(c);
      TreePrintable(c);
    case MoreArgs(c, tail) =>
      assert ArgsTrees(args)[0] == Tree(c);
      assert forall i :: 0 <= i < |ArgsTrees(tail)| ==> ArgsTrees(args)[i + 1] == ArgsTrees(tail)[i];
      TreePrintable(c);
      ArgsPrintable(tail);
  }

  /** Whatever was parsed, index expressions aside, survives being printed and parsed again. */
  lemma ParsedReparses(ts: seq<Token>, stop: Stop)
    requires ParseExpr(ts, stop).Ok? && NoIndex(ParseExpr(ts, stop).value)
    ensures var r := ParseExpr(ts, stop);
      && Printable(r.value)
      && var again := ParseExpr(Printed(r.value) + r.rest, stop);
         again.Ok? && again.rest == r.rest && SameButScopes(r.value, again.value)
  {
    var r := ParseExpr(ts, stop);
    var c := OnlySentences(ts, stop, Start);
    TreePrintable(c);
    RoundTrip(r.value, stop, r.rest);
  }
}
