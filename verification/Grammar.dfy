/** Tokens, and the expression parser as a function of the tokens still to come. */
module Grammar {
  import opened Options
  import opened ExprTree

  datatype Token =
    | Name(name: string) | IntTok(value: nat) | BoolTok(truth: bool) | NullTok | SizeofTok
    | OpTok(op: BinopType)   // `*` is also the dereferencing segment of a path
    | AsTok | AutoTok | Dot | Comma | Semicolon | Assign
    | OpenRound | CloseRound | OpenSquare | CloseSquare | OpenCurly | CloseCurly
    | OtherTok(kind: nat) | Eoi

  /** The sets of tokens at which the parser's callers let an expression end. */
  datatype Stop = AtSemicolon | AtCloseRound | AtOpenCurly | AtCallArg | AtArrayArg | AtIndexEnd | AtStmtEnd

  predicate Stops(stop: Stop, t: Token) {
    match stop
    case AtSemicolon => t == Semicolon
    case AtCloseRound => t == CloseRound
    case AtOpenCurly => t == OpenCurly
    case AtCallArg => t == Comma || t == CloseRound
    case AtArrayArg => t == Comma || t == CloseCurly
    case AtIndexEnd => t == CloseSquare
    case AtStmtEnd => t == Assign || t == Semicolon
  }

  /** On success, the value and the tokens left. */
  datatype Parsed<+T> = Ok(value: T, rest: seq<Token>) | Fail

  /** `xs`, then what was parsed after it. */
  function Prefixed<T>(xs: seq<T>, r: Parsed<seq<T>>): Parsed<seq<T>> {
    match r
    case Ok(more, rest) => Ok(xs + more, rest)
    case Fail => Fail
  }

  lemma PrefixedTwice<T>(xs: seq<T>, ys: seq<T>, r: Parsed<seq<T>>)
    ensures Prefixed(xs, Prefixed(ys, r)) == Prefixed(xs + ys, r)
    ensures Prefixed([], r) == r
  {
    if r.Ok? {
      assert xs + (ys + r.value) == xs + ys + r.value;
      assert [] + r.value == r.value;
    }
  }

  // ---------- paths and types ----------

  function SegmentOf(t: Token): Option<Segment> {
    match t
    case NullTok => Some(NullSegment)
    case Name(n) => Some(Ident(n))
    case SizeofTok => Some(SizeofSegment)
    case OpTok(Mul) => Some(DerefSegment)
    case _ => None
  }

  function ParsePath(ts: seq<Token>): (r: Parsed<Path>)
    ensures r.Ok? ==> |r.rest| < |ts|
    decreases |ts|
  {
    if ts == [] || SegmentOf(ts[0]).None? then Fail
    else
      var seg := SegmentOf(ts[0]).value;
      if |ts| > 1 && ts[1] == Dot then
        Prefixed([seg], ParsePath(ts[2..]))
      else Ok([seg], ts[1..])
  }

  /** Named types only. */
  function ParseType(ts: seq<Token>): (r: Parsed<Path>)
    ensures r.Ok? ==> |r.rest| < |ts|
  {
    if ts != [] && ts[0].Name? then ParsePath(ts) else Fail
  }

  // ---------- expressions ----------

  datatype Current = Nothing | So(far: Expr)

  function MarkScoped(e: Expr): Expr {
    if e.Binop? then e.(scoped := true) else e
  }

  function ParseExpr(ts: seq<Token>, stop: Stop): (r: Parsed<Expr>)
    ensures r.Ok? ==> r.rest != [] && |r.rest| < |ts| && Stops(stop, r.rest[0])
    decreases |ts|, 3
  {
    ParseOn(ts, stop, Nothing)
  }

  /** The loop, from the start of a turn, with the expression read so far. */
  function ParseOn(ts: seq<Token>, stop: Stop, current: Current): (r: Parsed<Expr>)
    ensures r.Ok? ==> r.rest != [] && |r.rest| <= |ts| && Stops(stop, r.rest[0])
    ensures r.Ok? && current.Nothing? ==> |r.rest| < |ts|
    decreases |ts|, 2
  {
    match ParseOperands(ts, stop, current)
    case Ok(read, rest) => ParseEnd(rest, stop, read)
    case Fail => Fail
  }

  lemma OnParts(ts: seq<Token>, stop: Stop, current: Current)
    ensures var p := ParseOperands(ts, stop, current);
      ParseOn(ts, stop, current) == if p.Ok? then ParseEnd(p.rest, stop, p.value) else Fail
  {
  }

  lemma ExprParts(ts: seq<Token>, stop: Stop)
    ensures var p := ParseOperands(ts, stop, Nothing);
      ParseExpr(ts, stop) == if p.Ok? then ParseEnd(p.rest, stop, p.value) else Fail
  {
    assert ParseExpr(ts, stop) == ParseOn(ts, stop, Nothing);
    OnParts(ts, stop, Nothing);
  }

  /** One turn of the loop. */
  lemma OnTurn(ts: seq<Token>, stop: Stop, current: Current)
    requires ts != [] && !Stops(stop, ts[0]) && !ts[0].OpTok?
    ensures var t := ParseTurn(ts[0], ts[1..], stop, current);
      ParseOn(ts, stop, current) == if t.Ok? then ParseOn(t.rest, stop, So(t.value)) else Fail
  {
    var t := ParseTurn(ts[0], ts[1..], stop, current);
    assert ParseOperands(ts, stop, current) == if t.Ok? then ParseOperands(t.rest, stop, So(t.value)) else Fail;
    OnParts(ts, stop, current);
    if t.Ok? {
      OnParts(t.rest, stop, So(t.value));
    }
  }

  /** The turns up to the stop or the first operator, which is left over. */
  function ParseOperands(ts: seq<Token>, stop: Stop, current: Current): (r: Parsed<Current>)
    ensures r.Ok? ==> r.rest != [] && |r.rest| <= |ts| && (Stops(stop, r.rest[0]) || r.rest[0].OpTok?)
    ensures r.Ok? && current.Nothing? && r.value.So? ==> |r.rest| < |ts|
    decreases |ts|, 0
  {
    if ts == [] then Fail
    else if Stops(stop, ts[0]) || ts[0].OpTok? then Ok(current, ts)
    else
      match ParseTurn(ts[0], ts[1..], stop, current)
      case Ok(e, rest) => ParseOperands(rest, stop, So(e))
      case Fail => Fail
  }

  /** The stop, which is left over, or an operator, which takes everything up to the stop as its right
      side. */
  function ParseEnd(ts: seq<Token>, stop: Stop, current: Current): (r: Parsed<Expr>)
    requires ts != []
    ensures r.Ok? ==> r.rest != [] && |r.rest| <= |ts| && Stops(stop, r.rest[0])
    decreases |ts|, 1
  {
    match current
    case Nothing => Fail
    case So(e) =>
      if Stops(stop, ts[0]) then Ok(e, ts)
      else if !ts[0].OpTok? then Fail
      else
        match ParseExpr(ts[1..], stop)
        case Ok(right, rest) => Ok(PushDown(Binop(ts[0].op, e, right, false)), rest)
        case Fail => Fail
  }

  /** An operand with all the `as` and `.` after it. */
  function ParseTurn(t: Token, ts: seq<Token>, stop: Stop, current: Current): (r: Parsed<Expr>)
    ensures r.Ok? ==> |r.rest| <= |ts|
    decreases |ts|, 7
  {
    match ParseOperand(t, ts, current)
    case Ok(e, rest) => ParseSuffixes(rest, stop, e)
    case Fail => Fail
  }

  /** An operand that starts with `t`, or a call or an index that goes on with `t`. */
  function ParseOperand(t: Token, ts: seq<Token>, current: Current): (r: Parsed<Expr>)
    ensures r.Ok? ==> |r.rest| <= |ts|
    decreases |ts|, 6
  {
    match t
    case BoolTok(b) => Ok(BoolLit(b), ts)
    case IntTok(v) => Ok(IntLit(v), ts)
    case NullTok => Ok(NullLit, ts)
    case Name(_) =>
      (match ParsePath([t] + ts)
       case Ok(path, rest) => Ok(Local(path), rest)
       case Fail => Fail)
    case OpenSquare =>
      if current.Nothing? then Fail
      else (match ParseExpr(ts, AtIndexEnd)
            case Ok(idx, rest) => Ok(Index(current.far, idx), rest[1..])
            case Fail => Fail)
    case OpenRound =>
      (match current
       case So(e) =>
         (match ParseCallArgs(ts)
          case Ok(args, rest) => Ok(Call(e, args), rest)
          case Fail => Fail)
       case Nothing =>
         (match ParseExpr(ts, AtCloseRound)
          case Ok(e, rest) => Ok(MarkScoped(e), rest[1..])
          case Fail => Fail))
    case _ => Fail
  }

  predicate StartsSuffix(ts: seq<Token>, stop: Stop) {
    ts != [] && !Stops(stop, ts[0]) && (ts[0] == AsTok || ts[0] == Dot)
  }

  /** Every `as` and `.` directly after an operand. */
  function ParseSuffixes(ts: seq<Token>, stop: Stop, e: Expr): (r: Parsed<Expr>)
    ensures r.Ok? ==> |r.rest| <= |ts|
    decreases |ts|
  {
    if !StartsSuffix(ts, stop) then Ok(e, ts)
    else
      match ParseSuffix(ts[0], ts[1..], e)
      case Ok(e', rest) => ParseSuffixes(rest, stop, e')
      case Fail => Fail
  }

  function ParseSuffix(t: Token, ts: seq<Token>, e: Expr): (r: Parsed<Expr>)
    ensures r.Ok? ==> |r.rest| < |ts|
  {
    if t == Dot then
      match ParsePath(ts)
      case Ok(path, rest) => Ok(Inner(e, path), rest)
      case Fail => Fail
    else if ts != [] && ts[0] == AutoTok then Ok(AsAuto(e), ts[1..])
    else
      match ParseType(ts)
      case Ok(ty, rest) => Ok(As(e, ty), rest)
      case Fail => Fail
  }

  /** After the opening bracket of a call, up to and including the closing one. */
  function ParseCallArgs(ts: seq<Token>): (r: Parsed<seq<Expr>>)
    ensures r.Ok? ==> |r.rest| < |ts|
    decreases |ts|, 5
  {
    if ts != [] && ts[0] == CloseRound then Ok([], ts[1..]) else ParseArgs(ts)
  }

  function ParseArgs(ts: seq<Token>): (r: Parsed<seq<Expr>>)
    ensures r.Ok? ==> |r.rest| < |ts|
    decreases |ts|, 4
  {
    match ParseExpr(ts, AtCallArg)
    case Fail => Fail
    case Ok(e, rest) =>
      if rest[0] == CloseRound then Ok([e], rest[1..])
      else
        Prefixed([e], ParseArgs(rest[1..]))
  }
}
