/** The expression language as a grammar: operands joined by binary operators, with no say on how the
    operators nest. `Toks` writes a sentence out, `Tree` says what it means. */
module Chains {
  import opened Options
  import opened ExprTree
  import opened Grammar

  datatype Atom = IntAtom(value: nat) | BoolAtom(truth: bool) | NullAtom | PathAtom(path: Path)

  datatype Chain = One(only: Operand) | More(first: Operand, op: BinopType, rest: Chain)

  datatype Operand =
    | Lit(atom: Atom)
    | Dropping(of: Operand, atom: Atom)   // an atom right after an operand: the parser forgets the operand
    | Paren(inner: Chain)
    | Called(of: Operand, args: Args)
    | Indexed(of: Operand, idx: Chain)
    | Cast(of: Operand, ty: Path)
    | CastAuto(of: Operand)
    | Dotted(of: Operand, path: Path)

  datatype Args = NoArgs | OneArg(last: Chain) | MoreArgs(head: Chain, tail: Args)

  // ---------- which sentences are well formed ----------

  predicate EndsInPath(o: Operand) {
    match o
    case Lit(a) => a.PathAtom?
    case Dropping(_, a) => a.PathAtom?
    case Cast(_, _) => true
    case Dotted(_, _) => true
    case _ => false
  }

  predicate WfAtom(a: Atom) {
    a.PathAtom? ==> a.path != [] && a.path[0].Ident?
  }

  /** A path takes every `.` that follows it, so a path cannot be followed by a second one. */
  predicate WfOperand(o: Operand) {
    match o
    case Lit(a) => WfAtom(a)
    case Dropping(of, a) => WfOperand(of) && WfAtom(a)
    case Paren(c) => WfChain(c)
    case Called(of, args) => WfOperand(of) && WfArgs(args)
    case Indexed(of, idx) => WfOperand(of) && WfChain(idx)
    case Cast(of, ty) => WfOperand(of) && ty != [] && ty[0].Ident?
    case CastAuto(of) => WfOperand(of)
    case Dotted(of, path) => WfOperand(of) && !EndsInPath(of) && path != []
  }

  predicate WfChain(c: Chain) {
    match c
    case One(o) => WfOperand(o)
    case More(o, _, rest) => WfOperand(o) && WfChain(rest)
  }

  predicate WfArgs(args: Args) {
    match args
    case NoArgs => true
    case OneArg(c) => WfChain(c)
    case MoreArgs(c, rest) => WfChain(c) && WfArgs(rest) && !rest.NoArgs?
  }

  // ---------- sentences as tokens ----------

  function SegToken(s: Segment): Token {
    match s
    case Ident(n) => Name(n)
    case NullSegment => NullTok
    case SizeofSegment => SizeofTok
    case DerefSegment => OpTok(Mul)
  }

  function PathToks(p: Path): seq<Token> {
    if p == [] then []
    else if |p| == 1 then [SegToken(p[0])]
    else [SegToken(p[0]), Dot] + PathToks(p[1..])
  }

  function AtomToks(a: Atom): seq<Token> {
    match a
    case IntAtom(v) => [IntTok(v)]
    case BoolAtom(b) => [BoolTok(b)]
    case NullAtom => [NullTok]
    case PathAtom(p) => PathToks(p)
  }

  function OperandToks(o: Operand): seq<Token> {
    match o
    case Lit(a) => AtomToks(a)
    case Dropping(of, a) => OperandToks(of) + AtomToks(a)
    case Paren(c) => [OpenRound] + Toks(c) + [CloseRound]
    case Called(of, args) => OperandToks(of) + [OpenRound] + ArgsToks(args) + [CloseRound]
    case Indexed(of, idx) => OperandToks(of) + [OpenSquare] + Toks(idx) + [CloseSquare]
    case Cast(of, ty) => OperandToks(of) + [AsTok] + PathToks(ty)
    case CastAuto(of) => OperandToks(of) + [AsTok, AutoTok]
    case Dotted(of, path) => OperandToks(of) + [Dot] + PathToks(path)
  }

  function Toks(c: Chain): seq<Token> {
    match c
    case One(o) => OperandToks(o)
    case More(o, op, rest) => OperandToks(o) + [OpTok(op)] + Toks(rest)
  }

  function ArgsToks(args: Args): seq<Token> {
    match args
    case NoArgs => []
    case OneArg(c) => Toks(c)
    case MoreArgs(c, rest) => Toks(c) + [Comma] + ArgsToks(rest)
  }

  /** How the tokens of a sentence and those after it come one after the other. */
  lemma Regroup(a: seq<Token>, b: seq<Token>, c: seq<Token>, d: seq<Token>, e: seq<Token>)
    ensures a + b + c + d + e == a + (b + (c + (d + e)))
    ensures a + b + c + d == a + (b + (c + d))
    ensures a + b + c == a + (b + c)
  {
  }

  lemma CalledToks(of: Operand, args: Args, rest: seq<Token>)
    ensures OperandToks(Called(of, args)) + rest == OperandToks(of) + ([OpenRound] + (ArgsToks(args) + ([CloseRound] + rest)))
  {
    Regroup(OperandToks(of), [OpenRound], ArgsToks(args), [CloseRound], rest);
  }

  lemma IndexedToks(of: Operand, idx: Chain, rest: seq<Token>)
    ensures OperandToks(Indexed(of, idx)) + rest == OperandToks(of) + ([OpenSquare] + (Toks(idx) + ([CloseSquare] + rest)))
  {
    Regroup(OperandToks(of), [OpenSquare], Toks(idx), [CloseSquare], rest);
  }

  lemma ParenToks(c: Chain, rest: seq<Token>)
    ensures OperandToks(Paren(c)) + rest == [OpenRound] + (Toks(c) + ([CloseRound] + rest))
  {
    Regroup([OpenRound], Toks(c), [CloseRound], rest, []);
  }

  lemma DroppingToks(of: Operand, a: Atom, rest: seq<Token>)
    ensures OperandToks(Dropping(of, a)) + rest == OperandToks(of) + (AtomToks(a) + rest)
  {
    Regroup(OperandToks(of), AtomToks(a), rest, [], []);
  }

  lemma SuffixToks(of: Operand, p: Path, rest: seq<Token>)
    ensures OperandToks(Cast(of, p)) + rest == OperandToks(of) + ([AsTok] + (PathToks(p) + rest))
    ensures OperandToks(Dotted(of, p)) + rest == OperandToks(of) + ([Dot] + (PathToks(p) + rest))
    ensures OperandToks(CastAuto(of)) + rest == OperandToks(of) + ([AsTok] + ([AutoTok] + rest))
  {
    Regroup(OperandToks(of), [AsTok], PathToks(p), rest, []);
    Regroup(OperandToks(of), [Dot], PathToks(p), rest, []);
    Regroup(OperandToks(of), [AsTok], [AutoTok], rest, []);
    assert [AsTok] + [AutoTok] == [AsTok, AutoTok];
  }

  lemma MoreToks(o: Operand, op: BinopType, c: Chain, rest: seq<Token>)
    ensures Toks(More(o, op, c)) + rest == OperandToks(o) + ([OpTok(op)] + (Toks(c) + rest))
  {
    Regroup(OperandToks(o), [OpTok(op)], Toks(c), rest, []);
  }

  lemma ArgsToksThen(c: Chain, args: Args, rest: seq<Token>)
    ensures ArgsToks(MoreArgs(c, args)) + rest == Toks(c) + ([Comma] + (ArgsToks(args) + rest))
  {
    Regroup(Toks(c), [Comma], ArgsToks(args), rest, []);
  }

  // ---------- sentences as trees ----------

  function AtomTree(a: Atom): Expr {
    match a
    case IntAtom(v) => IntLit(v)
    case BoolAtom(b) => BoolLit(b)
    case NullAtom => NullLit
    case PathAtom(p) => Local(p)
  }

  function OperandTree(o: Operand): (e: Expr)
    ensures !e.Open()
    decreases o, 0
  {
    match o
    case Lit(a) => AtomTree(a)
    case Dropping(_, a) => AtomTree(a)
    case Paren(c) => MarkScoped(Tree(c))
    case Called(of, args) => Call(OperandTree(of), ArgsTrees(args))
    case Indexed(of, idx) => Index(OperandTree(of), Tree(idx))
    case Cast(of, ty) => As(OperandTree(of), ty)
    case CastAuto(of) => AsAuto(OperandTree(of))
    case Dotted(of, path) => Inner(OperandTree(of), path)
  }

  function ArgsTrees(args: Args): seq<Expr> {
    match args
    case NoArgs => []
    case OneArg(c) => [Tree(c)]
    case MoreArgs(c, rest) => [Tree(c)] + ArgsTrees(rest)
  }

  function OpsOf(c: Chain): seq<BinopType> {
    match c
    case One(_) => []
    case More(_, op, rest) => [op] + OpsOf(rest)
  }

  function OperandsOf(c: Chain): (xs: seq<Expr>)
    ensures |xs| == |OpsOf(c)| + 1 && forall x <- xs :: !x.Open()
    decreases c, 0
  {
    match c
    case One(o) => [OperandTree(o)]
    case More(o, _, rest) => [OperandTree(o)] + OperandsOf(rest)
  }

  /** The left-associative precedence tree. */
  function Tree(c: Chain): Expr
    decreases c, 1
  {
    Reference(OperandsOf(c)[0], OpsOf(c), OperandsOf(c)[1..])
  }

  /** It is the one tree in precedence form with these operands and operators. */
  lemma TreeIsPrecedenceForm(c: Chain, e: Expr)
    ensures e == Tree(c) <==> PrecForm(e) && Operands(e) == OperandsOf(c) && Ops(e) == OpsOf(c)
  {
    var xs := OperandsOf(c);
    ReferenceForm(xs[0], OpsOf(c), xs[1..]);
    assert [xs[0]] + xs[1..] == xs;
    if PrecForm(e) && Operands(e) == xs && Ops(e) == OpsOf(c) {
      SamePrecForm(e, Tree(c));
    }
  }

  lemma TreeOfMore(o: Operand, op: BinopType, rest: Chain)
    ensures Tree(More(o, op, rest)) == PushDown(Binop(op, OperandTree(o), Tree(rest), false))
  {
    var xs := OperandsOf(rest);
    PushDownIsReference(OperandTree(o), op, xs[0], OpsOf(rest), xs[1..]);
    assert [xs[0]] + xs[1..] == xs;
    assert OperandsOf(More(o, op, rest))[1..] == xs;
  }
}
