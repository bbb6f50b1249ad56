/** The expression parser: a lexer position, one token that can be put back, and expression nodes
    built on the heap. */
module Parser {
  import opened Options
  import opened ExprTree
  import opened ExprNode
  import opened Grammar

  class Parser {
    const tokens: seq<Token>   // what the lexer still had when the parser was made
    var pos: nat
    var token: Token
    var skipNext: bool
    var failed: bool

    ghost predicate Valid()
      reads this
    {
      pos <= |tokens| && Eoi !in tokens && (token == Eoi ==> pos == |tokens|)
    }

    /** What a read has given: a tree with the tokens it left, or nothing. */
    ghost predicate Yields(r: Parsed<Expr>, node: AstExpr?)
      requires Valid()
      reads this, if node == null then {} else {node} + node.Repr
    {
      match r
      case Ok(e, rest) => node != null && node.Valid() && node.Tree() == e && Rest() == rest
      case Fail => node == null
    }

    /** The tokens still to come, a token put back included. */
    ghost function Rest(): (ts: seq<Token>)
      requires Valid()
      reads this
      ensures Eoi !in ts
    {
      (if skipNext && token != Eoi then [token] else []) + tokens[pos..]
    }

    constructor (tokens: seq<Token>)
      requires Eoi !in tokens
      ensures Valid() && Rest() == tokens && !failed && !skipNext
    {
      this.tokens := tokens;
      pos, token, skipNext, failed := 0, OtherTok(0), false, false;
    }

    method Step()
      requires Valid()
      modifies this`pos, this`token, this`skipNext
      ensures Valid() && !skipNext
      ensures token == if old(Rest()) == [] then Eoi else old(Rest())[0]
      ensures Rest() == if old(Rest()) == [] then [] else old(Rest())[1..]
    {
      if skipNext {
        skipNext := false;
        return;
      }
      if pos < |tokens| {
        token := tokens[pos];
        assert token in tokens;
        pos := pos + 1;
      } else {
        token := Eoi;
      }
    }

    method Next() returns (t: Token)
      requires Valid()
      modifies this`pos, this`token, this`skipNext
      ensures Valid() && !skipNext && t == token
      ensures token == if old(Rest()) == [] then Eoi else old(Rest())[0]
      ensures Rest() == if old(Rest()) == [] then [] else old(Rest())[1..]
    {
      Step();
      t := token;
    }

    method SkipNext()
      requires Valid() && !skipNext
      modifies this`skipNext
      ensures Valid() && skipNext
      ensures Rest() == if token == Eoi then old(Rest()) else [token] + old(Rest())
    {
      skipNext := true;
    }

    method NextIs(t: Token) returns (yes: bool)
      requires Valid() && t != Eoi
      modifies this`pos, this`token, this`skipNext
      ensures Valid() && yes == (old(Rest()) != [] && old(Rest())[0] == t)
      ensures Rest() == if yes then old(Rest())[1..] else old(Rest())
      ensures yes ==> !skipNext
    {
      var next := Next();
      if next == t {
        return true;
      }
      SkipNext();
      return false;
    }

    method NextIsNot(t: Token) returns (yes: bool)
      requires Valid() && t != Eoi
      modifies this`pos, this`token, this`skipNext
      ensures Valid() && yes == (old(Rest()) == [] || old(Rest())[0] != t)
      ensures Rest() == if yes then old(Rest()) else old(Rest())[1..]
      ensures !yes ==> !skipNext
    {
      var next := Next();
      if next != t {
        SkipNext();
        return true;
      }
      return false;
    }

    method ExpectNext(t: Token) returns (ok: bool)
      requires Valid() && t != Eoi
      modifies this
      ensures Valid() && ok == (old(Rest()) != [] && old(Rest())[0] == t)
      ensures ok ==> Rest() == old(Rest())[1..]
      ensures failed == (old(failed) || !ok)
    {
      ok := NextIs(t);
      if !ok {
        failed := true;
      }
    }

    // ---------- paths and types ----------

    method ParsePath() returns (r: Option<Path>)
      requires Valid()
      modifies this
      ensures Valid()
      ensures match Grammar.ParsePath(old(Rest()))
              case Ok(path, rest) => r == Some(path) && Rest() == rest
              case Fail => r == None
      ensures failed == (old(failed) || r.None?)
    {
      var path: Path := [];
      ghost var all := Grammar.ParsePath(Rest());
      PrefixedTwice([], path, all);
      while true
        invariant Valid() && failed == old(failed)
        invariant all == Prefixed(path, Grammar.ParsePath(Rest()))
        decreases |Rest()|
      {
        var t := Next();
        var seg := SegmentOf(t);
        if seg.None? {
          failed := true;
          return None;
        }
        ghost var ts := Rest();
        PrefixedTwice(path, [seg.value], if ts == [] then Fail else Grammar.ParsePath(ts[1..]));
        path := path + [seg.value];
        var done := NextIsNot(Dot);
        if done {
          return Some(path);
        }
      }
    }

    method ParseType() returns (r: Option<Path>)
      requires Valid()
      modifies this
      ensures Valid()
      ensures match Grammar.ParseType(old(Rest()))
              case Ok(path, rest) => r == Some(path) && Rest() == rest
              case Fail => r == None
      ensures failed == (old(failed) || r.None?)
    {
      ghost var ts := Rest();
      var t := Next();
      match t {
        case Name(_) =>
          SkipNext();
          assert Rest() == ts;
          r := ParsePath();
        case _ =>
          failed := true;
          r := None;
      }
    }

    // ---------- expressions ----------

    /** How a node stands for the expression read so far. */
    ghost predicate Holds(node: AstExpr?, current: Current)
      reads this, if node == null then {} else {node} + node.Repr
    {
      match current
      case Nothing => node == null
      case So(e) => node != null && node.Valid() && node.Tree() == e
    }

    method ParseExpr(stop: Stop) returns (node: AstExpr?)
      requires Valid()
      modifies this
      ensures Valid()
      ensures match Grammar.ParseExpr(old(Rest()), stop)
              case Ok(e, rest) => node != null && node.Valid() && fresh(node.Repr) && node.Tree() == e && Rest() == rest
              case Fail => node == null
      ensures failed == (old(failed) || node == null)
      decreases |Rest()|, 4
    {
      ExprParts(Rest(), stop);
      var ok, t, first;
      ghost var ts, current;
      ok, node, t, first, ts, current := ParseOperands(stop);
      if !ok {
        return null;
      }
      node := Finish(stop, t, node, first, ts, current);
    }

    /** The turns up to the stop or the first operator, `t`, which has been taken unless it is the stop. */
    method ParseOperands(stop: Stop)
      returns (ok: bool, node: AstExpr?, t: Token, first: bool, ghost ts: seq<Token>, ghost current: Current)
      requires Valid()
      modifies this
      ensures Valid()
      ensures Grammar.ParseOperands(old(Rest()), stop, Nothing) == if ok then Ok(current, ts) else Fail
      ensures ok ==> Holds(node, current) && (node != null ==> fresh(node.Repr))
      ensures ok ==> t == ts[0] && Rest() == if Stops(stop, t) then ts else ts[1..]
      ensures ok ==> if first then node == null || Stops(stop, t) else node != null
      ensures failed == (old(failed) || !ok)
      decreases |Rest()|, 3
    {
      ok, node, first := true, null, true;
      ts, current := Rest(), Nothing;
      ghost var all := Grammar.ParseOperands(ts, stop, Nothing);
      while true
        invariant Valid() && Holds(node, current) && (node != null ==> fresh(node.Repr)) && failed == old(failed)
        invariant Rest() == ts && |ts| <= |old(Rest())| && all == Grammar.ParseOperands(ts, stop, current)
        invariant if first then node == null || (ts != [] && Stops(stop, ts[0])) else node != null
        decreases |ts|
      {
        var next, more;
        t, next, more := ParseStep(stop, node, current);
        if Stops(stop, t) || t.OpTok? {
          return;
        }
        if next == null {
          ok := false;
          return;
        }
        node, ts, current := next, Rest(), So(next.Tree());
        first := first && !more;
      }
    }

    /** The next token, and the turn that starts with it unless it is the stop or an operator. */
    method ParseStep(stop: Stop, of: AstExpr?, ghost current: Current) returns (t: Token, node: AstExpr?, more: bool)
      requires Valid() && Holds(of, current)
      modifies this
      ensures Valid() && t == if old(Rest()) == [] then Eoi else old(Rest())[0]
      ensures Stops(stop, t) ==> Rest() == old(Rest())
      ensures !Stops(stop, t) && t.OpTok? ==> Rest() == old(Rest())[1..]
      ensures !Stops(stop, t) && !t.OpTok? ==> Turned(old(Rest()), stop, current, node)
      ensures !Stops(stop, t) && !t.OpTok? && node != null ==> fresh(node.Repr) && (!more ==> Rest() != [] && Stops(stop, Rest()[0]))
      ensures failed == (old(failed) || (!Stops(stop, t) && !t.OpTok? && node == null))
      decreases |Rest()|, 2
    {
      t := NextUnlessStop(stop);
      if Stops(stop, t) || t.OpTok? {
        return t, null, false;
      }
      node, more := ParseTurn(stop, t, of, current);
    }

    /** After a turn: its node, and what it left. */
    ghost predicate Turned(ts: seq<Token>, stop: Stop, current: Current, node: AstExpr?)
      requires Valid()
      reads this, if node == null then {} else {node} + node.Repr
    {
      if ts == [] then node == null else Yields(Grammar.ParseTurn(ts[0], ts[1..], stop, current), node)
    }

    /** The stop, or an operator, whose right side reaches to the stop. */
    method Finish(stop: Stop, t: Token, left: AstExpr?, first: bool, ghost ts: seq<Token>, ghost current: Current)
      returns (node: AstExpr?)
      requires Valid() && Holds(left, current) && ts != [] && ts[0] == t && (Stops(stop, t) || t.OpTok?)
      requires Rest() == if Stops(stop, t) then ts else ts[1..]
      requires if first then left == null || Stops(stop, t) else left != null
      modifies this, if left == null then {} else left.Repr
      ensures Valid()
      ensures Yields(ParseEnd(ts, stop, current), node)
      ensures node != null ==> fresh(node.Repr - if left == null then {} else old(left.Repr))
      ensures failed == (old(failed) || node == null)
      decreases |Rest()|, if Stops(stop, t) then 0 else 6
    {
      if Stops(stop, t) {
        failed := failed || left == null;
        return left;
      }
      if first {
        failed := true;
        return null;
      }
      node := MakeBinop(t.op, left, stop);
    }

    /** The next token, put back if the expression ends at it. */
    method NextUnlessStop(stop: Stop) returns (t: Token)
      requires Valid()
      modifies this`pos, this`token, this`skipNext
      ensures Valid() && t == token == (if old(Rest()) == [] then Eoi else old(Rest())[0])
      ensures Rest() == if old(Rest()) != [] && !Stops(stop, t) then old(Rest())[1..] else old(Rest())
      ensures !Stops(stop, t) ==> !skipNext
    {
      t := Next();
      if Stops(stop, t) {
        SkipNext();
      }
    }

    /** A turn that does not start with an operator. Tells whether anything but the stop comes next. */
    method ParseTurn(stop: Stop, t: Token, of: AstExpr?, ghost current: Current) returns (node: AstExpr?, more: bool)
      requires Valid() && !skipNext && t == token && Holds(of, current)
      modifies this
      ensures Valid()
      ensures match Grammar.ParseTurn(t, old(Rest()), stop, current)
              case Ok(e, rest) => node != null && node.Valid() && fresh(node.Repr) && node.Tree() == e && Rest() == rest
              case Fail => node == null
      ensures node != null && !more ==> Rest() != [] && Stops(stop, Rest()[0])
      ensures failed == (old(failed) || node == null)
      decreases |Rest()|, if t == Eoi then 1 else 7
    {
      node := ParseOperand(t, of, current);
      if node == null {
        return null, false;
      }
      node, more := ParseSuffixes(stop, node);
    }

    /** The cases of the token that starts a turn, operators aside. */
    method ParseOperand(t: Token, of: AstExpr?, ghost current: Current) returns (node: AstExpr?)
      requires Valid() && !skipNext && t == token && Holds(of, current)
      modifies this
      ensures Valid()
      ensures match Grammar.ParseOperand(t, old(Rest()), current)
              case Ok(e, rest) => node != null && node.Valid() && fresh(node.Repr) && node.Tree() == e && Rest() == rest
              case Fail => node == null
      ensures failed == (old(failed) || node == null)
      decreases |Rest()|, if t == Eoi then 0 else 6
    {
      match t {
        case BoolTok(b) =>
          node := AllocPrimary(BoolLit(b));
        case IntTok(v) =>
          node := AllocPrimary(IntLit(v));
        case NullTok =>
          node := AllocPrimary(NullLit);
        case Name(_) =>
          SkipNext();
          var path := ParsePath();
          if path.None? {
            return null;
          }
          node := AllocPrimary(Local(path.value));
        case OpenSquare =>
          if of == null {
            failed := true;
            return null;
          }
          node := ParseIndex(of);
        case OpenRound =>
          if of != null {
            var callee := of.Tree();
            var args := ParseCallArgs();
            if args.None? {
              return null;
            }
            node := AllocPrimary(Call(callee, args.value));
          } else {
            node := ParseScope();
          }
        case _ =>
          failed := true;
          return null;
      }
    }

    method AllocPrimary(e: Expr) returns (node: AstExpr)
      requires !e.Binop?
      ensures node.Valid() && fresh(node.Repr) && node.Tree() == e && node.Repr == {node}
    {
      node := new AstExpr.OfPrimary(e);
    }

    /** After the opening bracket of an index. */
    method ParseIndex(of: AstExpr) returns (node: AstExpr?)
      requires Valid() && of.Valid()
      modifies this
      ensures Valid()
      ensures match Grammar.ParseExpr(old(Rest()), AtIndexEnd)
              case Ok(idx, rest) => node != null && node.Valid() && fresh(node.Repr) && node.Tree() == Index(old(of.Tree()), idx) && Rest() == rest[1..]
              case Fail => node == null
      ensures failed == (old(failed) || node == null)
      decreases |Rest()|, 5
    {
      var e := of.Tree();
      var idx := ParseExpr(AtIndexEnd);
      if idx == null {
        return null;
      }
      node := AllocPrimary(Index(e, idx.Tree()));
      var closed := ExpectNext(CloseSquare);
    }

    /** After an opening bracket that starts an operand. */
    method ParseScope() returns (node: AstExpr?)
      requires Valid()
      modifies this
      ensures Valid()
      ensures match Grammar.ParseExpr(old(Rest()), AtCloseRound)
              case Ok(e, rest) => node != null && node.Valid() && fresh(node.Repr) && node.Tree() == MarkScoped(e) && Rest() == rest[1..]
              case Fail => node == null
      ensures failed == (old(failed) || node == null)
      decreases |Rest()|, 5
    {
      node := ParseExpr(AtCloseRound);
      if node == null {
        return null;
      }
      node.scoped := true;
      var closed := ExpectNext(CloseRound);
    }

    /** The operator has been read; its right side is everything up to the stop. */
    method MakeBinop(op: BinopType, left: AstExpr, stop: Stop) returns (node: AstExpr?)
      requires Valid() && left.Valid()
      modifies this, left.Repr
      ensures Valid()
      ensures match Grammar.ParseExpr(old(Rest()), stop)
              case Ok(right, rest) =>
                && node != null && node.Valid() && fresh(node.Repr - old(left.Repr)) && Rest() == rest
                && node.Tree() == ExprTree.PushDown(Binop(op, old(left.Tree()), right, false))
              case Fail => node == null
      ensures failed == (old(failed) || node == null)
      decreases |Rest()|, 5
    {
      var right := ParseExpr(stop);
      if right == null {
        return null;
      }
      node := Join(op, left, right);
    }

    method Join(op: BinopType, left: AstExpr, right: AstExpr) returns (node: AstExpr)
      requires left.Valid() && right.Valid() && left.Repr !! right.Repr
      modifies right.Repr
      ensures node.Valid() && fresh(node.Repr - old(left.Repr) - old(right.Repr))
      ensures node.Tree() == ExprTree.PushDown(Binop(op, old(left.Tree()), old(right.Tree()), false))
    {
      node := new AstExpr.OfBinop(op, left, right);
      node.PushDown();
    }

    /** `as` and `.` after an operand. Tells whether anything but the stop was met. */
    method ParseSuffixes(stop: Stop, operand: AstExpr) returns (node: AstExpr?, more: bool)
      requires Valid() && operand.Valid()
      modifies this
      ensures Valid()
      ensures Yields(Grammar.ParseSuffixes(old(Rest()), stop, old(operand.Tree())), node)
      ensures node != null ==>
        && (node == operand || fresh(node.Repr))
        && (!more ==> Rest() != [] && Stops(stop, Rest()[0]))
      ensures failed == (old(failed) || node == null)
    {
      node, more := operand, false;
      ghost var all := Grammar.ParseSuffixes(Rest(), stop, operand.Tree());
      while true
        invariant Valid() && node != null && node.Valid() && (node == operand || fresh(node.Repr))
        invariant |Rest()| <= |old(Rest())| && all == Grammar.ParseSuffixes(Rest(), stop, node.Tree()) && failed == old(failed)
        decreases |Rest()|
      {
        var met, again;
        node, met, again := SuffixStep(stop, node);
        more := more || met;
        if !again {
          return;
        }
      }
    }

    /** One suffix, or the end of them: tells whether anything but the stop was met and whether another may follow. */
    method SuffixStep(stop: Stop, of: AstExpr) returns (node: AstExpr?, met: bool, again: bool)
      requires Valid() && of.Valid()
      modifies this
      ensures Valid() && (met <==> old(Rest()) == [] || !Stops(stop, old(Rest())[0]))
      ensures node == null || node == of || fresh(node.Repr)
      ensures !met ==> Rest() == old(Rest())
      ensures var all := Grammar.ParseSuffixes(old(Rest()), stop, old(of.Tree()));
        if !again then Yields(all, node)
        else
          && node != null && node.Valid() && |Rest()| < |old(Rest())|
          && all == Grammar.ParseSuffixes(Rest(), stop, node.Tree())
      ensures failed == (old(failed) || node == null)
    {
      var t := NextSuffix(stop);
      if Stops(stop, t) {
        return of, false, false;
      }
      if t != AsTok && t != Dot {
        return of, true, false;
      }
      node := ParseSuffix(t, of);
      return node, true, node != null;
    }

    /** The next token, put back unless it is `as` or `.`. */
    method NextSuffix(stop: Stop) returns (t: Token)
      requires Valid()
      modifies this`pos, this`token, this`skipNext
      ensures Valid() && t == (if old(Rest()) == [] then Eoi else old(Rest())[0])
      ensures Rest() == if StartsSuffix(old(Rest()), stop) then old(Rest())[1..] else old(Rest())
      ensures StartsSuffix(old(Rest()), stop) ==> !skipNext
    {
      t := Next();
      if Stops(stop, t) || (t != AsTok && t != Dot) {
        SkipNext();
      }
    }

    method ParseSuffix(t: Token, of: AstExpr) returns (node: AstExpr?)
      requires Valid() && of.Valid() && !skipNext
      requires t == AsTok || t == Dot
      modifies this
      ensures Valid()
      ensures match Grammar.ParseSuffix(t, old(Rest()), old(of.Tree()))
              case Ok(e, rest) => node != null && node.Valid() && fresh(node.Repr) && node.Tree() == e && Rest() == rest
              case Fail => node == null
      ensures failed == (old(failed) || node == null)
    {
      var e := of.Tree();
      if t == AsTok {
        var typed := NextIsNot(AutoTok);
        if typed {
          var ty := ParseType();
          if ty.None? {
            return null;
          }
          node := AllocPrimary(As(e, ty.value));
        } else {
          node := AllocPrimary(AsAuto(e));
        }
      } else {
        var path := ParsePath();
        if path.None? {
          return null;
        }
        node := AllocPrimary(Inner(e, path.value));
      }
    }

    /** After the opening bracket of a call, up to and including the closing one. */
    method ParseCallArgs() returns (r: Option<seq<Expr>>)
      requires Valid()
      modifies this
      ensures Valid()
      ensures match Grammar.ParseCallArgs(old(Rest()))
              case Ok(args, rest) => r == Some(args) && Rest() == rest
              case Fail => r == None
      ensures failed == (old(failed) || r.None?)
      decreases |Rest()|, 5
    {
      var args: seq<Expr> := [];
      var none := NextIs(CloseRound);
      if none {
        return Some(args);
      }
      ghost var all := ParseArgs(Rest());
      PrefixedTwice([], args, all);
      while true
        invariant Valid() && |Rest()| <= |old(Rest())| && failed == old(failed)
        invariant all == Prefixed(args, ParseArgs(Rest()))
        decreases |Rest()|
      {
        var e := ParseExpr(AtCallArg);
        if e == null {
          return None;
        }
        PrefixedTwice(args, [e.Tree()], ParseArgs(Rest()[1..]));
        args := args + [e.Tree()];
        var t := Next();
        match t {
          case Comma =>
          case CloseRound => return Some(args);
          case _ => assert false;
        }
      }
    }
  }
}
