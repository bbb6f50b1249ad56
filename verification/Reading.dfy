/** The parser reads exactly the sentences of the grammar, each as its own tree. */
module Reading {
  import opened Options
  import opened Sequences
  import opened ExprTree
  import opened Grammar
  import opened Chains

  /** What the parser does from here on, once it has an operand. */
  function Continue(ts: seq<Token>, stop: Stop, e: Expr): Parsed<Expr> {
    match ParseSuffixes(ts, stop, e)
    case Ok(e', rest) => ParseOn(rest, stop, So(e'))
    case Fail => Fail
  }

  predicate NoDot(ts: seq<Token>) {
    ts == [] || ts[0] != Dot
  }

  // ---------- paths ----------

  lemma PathTurn(s: Segment, ts: seq<Token>)
    ensures ParsePath([SegToken(s), Dot] + ts) == Prefixed([s], ParsePath(ts))
  {
    assert ([SegToken(s), Dot] + ts)[2..] == ts;
  }

  lemma {:induction false} PathReads(p: Path, rest: seq<Token>)
    requires p != [] && NoDot(rest)
    ensures ParsePath(PathToks(p) + rest) == Ok(p, rest)
  {
    if |p| > 1 {
      PathReads(p[1..], rest);
      PathTurn(p[0], PathToks(p[1..]) + rest);
      Associate([SegToken(p[0]), Dot], PathToks(p[1..]), rest);
      assert [p[0]] + p[1..] == p;
    } else {
      assert ([SegToken(p[0])] + rest)[1..] == rest && [p[0]] == p;
    }
  }

  lemma {:induction false} PathRead(ts: seq<Token>)
    requires ParsePath(ts).Ok?
    ensures var r := ParsePath(ts); r.value != [] && NoDot(r.rest) && ts == PathToks(r.value) + r.rest
    ensures SegToken(ParsePath(ts).value[0]) == ts[0]
    decreases |ts|
  {
    var r := ParsePath(ts);
    if |ts| > 1 && ts[1] == Dot {
      PathRead(ts[2..]);
      var p := ParsePath(ts[2..]).value;
      assert r.value[1..] == p;
      assert ts == [ts[0], Dot] + ts[2..];
    } else {
      assert ts == [ts[0]] + ts[1..];
    }
  }

  lemma {:induction false} PathStarts(p: Path)
    requires p != []
    ensures PathToks(p) != [] && PathToks(p)[0] == SegToken(p[0])
  {
  }

  // ---------- single turns of the loops ----------

  lemma TurnOnOperand(t: Token, ts: seq<Token>, stop: Stop, current: Current)
    requires !Stops(stop, t) && !t.OpTok? && ParseOperand(t, ts, current).Ok?
    ensures var r := ParseOperand(t, ts, current);
      ParseOn([t] + ts, stop, current) == Continue(r.rest, stop, r.value)
  {
    assert ([t] + ts)[1..] == ts;
    OnTurn([t] + ts, stop, current);
  }

  lemma ContinueOnOperand(t: Token, ts: seq<Token>, stop: Stop, e: Expr)
    requires !Stops(stop, t) && !t.OpTok? && t != AsTok && t != Dot && ParseOperand(t, ts, So(e)).Ok?
    ensures var r := ParseOperand(t, ts, So(e));
      Continue([t] + ts, stop, e) == Continue(r.rest, stop, r.value)
  {
    TurnOnOperand(t, ts, stop, So(e));
  }

  lemma ContinueOnSuffix(t: Token, ts: seq<Token>, stop: Stop, e: Expr)
    requires (t == AsTok || t == Dot) && ParseSuffix(t, ts, e).Ok?
    ensures var r := ParseSuffix(t, ts, e);
      Continue([t] + ts, stop, e) == Continue(r.rest, stop, r.value)
  {
    assert ([t] + ts)[1..] == ts;
  }

  lemma ContinueOnOp(op: BinopType, ts: seq<Token>, stop: Stop, e: Expr)
    ensures var r := ParseExpr(ts, stop);
      Continue([OpTok(op)] + ts, stop, e) ==
        if r.Ok? then Ok(PushDown(Binop(op, e, r.value, false)), r.rest) else Fail
  {
    assert ([OpTok(op)] + ts)[1..] == ts;
    OnParts([OpTok(op)] + ts, stop, So(e));
  }

  // ---------- every sentence is read ----------

  lemma {:induction false} OperandReads(o: Operand, stop: Stop, rest: seq<Token>)
    requires WfOperand(o) && (EndsInPath(o) ==> NoDot(rest))
    ensures ParseOn(OperandToks(o) + rest, stop, Nothing) == Continue(rest, stop, OperandTree(o))
    decreases o, 1
  {
    match o
    case Lit(a) => AtomReads(a, rest, stop, Nothing);
    case Dropping(_, _) => DroppingReads(o, stop, rest);
    case Paren(_) => ParenReads(o, stop, rest);
    case Called(_, _) => CallReads(o, stop, rest);
    case Indexed(_, _) => IndexReads(o, stop, rest);
    case _ => SuffixReads(o, stop, rest);
  }

  lemma {:induction false} DroppingReads(o: Operand, stop: Stop, rest: seq<Token>)
    requires o.Dropping? && WfOperand(o) && (EndsInPath(o) ==> NoDot(rest))
    ensures ParseOn(OperandToks(o) + rest, stop, Nothing) == Continue(rest, stop, OperandTree(o))
    decreases o, 0
  {
    DroppingToks(o.of, o.atom, rest);
    AtomStarts(o.atom);
    OperandReads(o.of, stop, AtomToks(o.atom) + rest);
    AtomContinues(o.atom, OperandTree(o.of), stop, rest);
  }

  /** An atom after an operand replaces it. */
  lemma AtomContinues(a: Atom, of: Expr, stop: Stop, rest: seq<Token>)
    requires WfAtom(a) && (a.PathAtom? ==> NoDot(rest))
    ensures Continue(AtomToks(a) + rest, stop, of) == Continue(rest, stop, AtomTree(a))
  {
    AtomStarts(a);
    AtomReads(a, rest, stop, So(of));
  }

  lemma {:induction false} ParenReads(o: Operand, stop: Stop, rest: seq<Token>)
    requires o.Paren? && WfOperand(o)
    ensures ParseOn(OperandToks(o) + rest, stop, Nothing) == Continue(rest, stop, OperandTree(o))
    decreases o, 0
  {
    var close := [CloseRound] + rest;
    ParenToks(o.inner, rest);
    ChainReads(o.inner, AtCloseRound, close);
    assert close[1..] == rest;
    TurnOnOperand(OpenRound, Toks(o.inner) + close, stop, Nothing);
  }

  lemma {:induction false} CallReads(o: Operand, stop: Stop, rest: seq<Token>)
    requires o.Called? && WfOperand(o)
    ensures ParseOn(OperandToks(o) + rest, stop, Nothing) == Continue(rest, stop, OperandTree(o))
    decreases o, 0
  {
    var more := ArgsToks(o.args) + ([CloseRound] + rest);
    CalledToks(o.of, o.args, rest);
    OperandReads(o.of, stop, [OpenRound] + more);
    ArgsRead(o.args, rest);
    CallContinues(more, ArgsTrees(o.args), OperandTree(o.of), stop, rest);
  }

  lemma CallContinues(ts: seq<Token>, args: seq<Expr>, of: Expr, stop: Stop, rest: seq<Token>)
    requires ParseCallArgs(ts) == Ok(args, rest)
    ensures Continue([OpenRound] + ts, stop, of) == Continue(rest, stop, Call(of, args))
  {
    ContinueOnOperand(OpenRound, ts, stop, of);
  }

  lemma {:induction false} IndexReads(o: Operand, stop: Stop, rest: seq<Token>)
    requires o.Indexed? && WfOperand(o)
    ensures ParseOn(OperandToks(o) + rest, stop, Nothing) == Continue(rest, stop, OperandTree(o))
    decreases o, 0
  {
    var close := [CloseSquare] + rest;
    IndexedToks(o.of, o.idx, rest);
    OperandReads(o.of, stop, [OpenSquare] + (Toks(o.idx) + close));
    ChainReads(o.idx, AtIndexEnd, close);
    IndexContinues(Toks(o.idx) + close, Tree(o.idx), OperandTree(o.of), stop, rest);
  }

  lemma IndexContinues(ts: seq<Token>, idx: Expr, of: Expr, stop: Stop, rest: seq<Token>)
    requires ParseExpr(ts, AtIndexEnd) == Ok(idx, [CloseSquare] + rest)
    ensures Continue([OpenSquare] + ts, stop, of) == Continue(rest, stop, Index(of, idx))
  {
    assert ([CloseSquare] + rest)[1..] == rest;
    ContinueOnOperand(OpenSquare, ts, stop, of);
  }

  lemma {:induction false} SuffixReads(o: Operand, stop: Stop, rest: seq<Token>)
    requires o.Cast? || o.CastAuto? || o.Dotted?
    requires WfOperand(o) && (EndsInPath(o) ==> NoDot(rest))
    ensures ParseOn(OperandToks(o) + rest, stop, Nothing) == Continue(rest, stop, OperandTree(o))
    decreases o, 0
  {
    match o
    case Cast(of, ty) =>
      var more := PathToks(ty) + rest;
      SuffixToks(of, ty, rest);
      OperandReads(of, stop, [AsTok] + more);
      PathReads(ty, rest);
      PathStarts(ty);
      ContinueOnSuffix(AsTok, more, stop, OperandTree(of));
    case CastAuto(of) =>
      var more := [AutoTok] + rest;
      SuffixToks(of, [], rest);
      OperandReads(of, stop, [AsTok] + more);
      assert more[1..] == rest;
      ContinueOnSuffix(AsTok, more, stop, OperandTree(of));
    case Dotted(of, path) =>
      var more := PathToks(path) + rest;
      SuffixToks(of, path, rest);
      OperandReads(of, stop, [Dot] + more);
      PathReads(path, rest);
      ContinueOnSuffix(Dot, more, stop, OperandTree(of));
  }

  lemma AtomStarts(a: Atom)
    requires WfAtom(a)
    ensures AtomToks(a) != []
    ensures var t := AtomToks(a)[0]; t.IntTok? || t.BoolTok? || t.NullTok? || t.Name?
  {
    if a.PathAtom? {
      PathStarts(a.path);
    }
  }

  lemma AtomReads(a: Atom, rest: seq<Token>, stop: Stop, current: Current)
    requires WfAtom(a) && (a.PathAtom? ==> NoDot(rest))
    ensures ParseOn(AtomToks(a) + rest, stop, current) == Continue(rest, stop, AtomTree(a))
  {
    var ts := AtomToks(a) + rest;
    AtomStarts(a);
    assert ts[0] == AtomToks(a)[0] && [ts[0]] + ts[1..] == ts;
    if a.PathAtom? {
      PathReads(a.path, rest);
      PathStarts(a.path);
    } else {
      assert ts[1..] == rest;
    }
    TurnOnOperand(ts[0], ts[1..], stop, current);
  }

  lemma {:induction false} ChainReads(c: Chain, stop: Stop, rest: seq<Token>)
    requires WfChain(c) && rest != [] && Stops(stop, rest[0])
    ensures ParseExpr(Toks(c) + rest, stop) == Ok(Tree(c), rest)
    decreases c, 2
  {
    match c
    case One(o) =>
      OperandReads(o, stop, rest);
      OnParts(rest, stop, So(OperandTree(o)));
    case More(o, op, more) =>
      var ts := Toks(more) + rest;
      MoreToks(o, op, more, rest);
      OperandReads(o, stop, [OpTok(op)] + ts);
      ContinueOnOp(op, ts, stop, OperandTree(o));
      ChainReads(more, stop, rest);
      TreeOfMore(o, op, more);
  }

  lemma {:induction false} ChainStarts(c: Chain)
    requires WfChain(c)
    ensures Toks(c) != [] && Toks(c)[0] != CloseRound
    decreases c, 1
  {
    OperandStarts(if c.One? then c.only else c.first);
  }

  lemma {:induction false} OperandStarts(o: Operand)
    requires WfOperand(o)
    ensures OperandToks(o) != [] && OperandToks(o)[0] != CloseRound
    decreases o, 0
  {
    match o
    case Lit(a) => AtomStarts(a);
    case Paren(_) =>
    case _ => OperandStarts(o.of);
  }

  lemma {:induction false} ArgsRead(args: Args, rest: seq<Token>)
    requires WfArgs(args)
    ensures ParseCallArgs(ArgsToks(args) + ([CloseRound] + rest)) == Ok(ArgsTrees(args), rest)
    ensures !args.NoArgs? ==> ParseArgs(ArgsToks(args) + ([CloseRound] + rest)) == Ok(ArgsTrees(args), rest)
    decreases args, 0
  {
    var close := [CloseRound] + rest;
    assert close[1..] == rest;
    var ts := ArgsToks(args) + close;
    match args
    case NoArgs =>
      assert ts == close;
    case OneArg(c) =>
      ChainReads(c, AtCallArg, close);
      ChainStarts(c);
    case MoreArgs(c, tail) =>
      var more := [Comma] + (ArgsToks(tail) + close);
      ArgsToksThen(c, tail, close);
      ChainReads(c, AtCallArg, more);
      ChainStarts(c);
      ArgsRead(tail, rest);
      assert more[1..] == ArgsToks(tail) + close;
  }

  // ---------- and nothing else is ----------

  /** What has been read of the current operand; nothing at the start. */
  datatype Read = Start | Far(operand: Operand)
  {
    predicate Wf(rest: seq<Token>) {
      Far? ==> WfOperand(operand) && (EndsInPath(operand) ==> NoDot(rest))
    }
    function Current(): Current {
      if Start? then Nothing else So(OperandTree(operand))
    }
    function Toks(): seq<Token> {
      if Start? then [] else OperandToks(operand)
    }
  }

  lemma {:induction false} OnlySentences(ts: seq<Token>, stop: Stop, read: Read) returns (c: Chain)
    requires read.Wf(ts) && ParseOn(ts, stop, read.Current()).Ok?
    ensures var r := ParseOn(ts, stop, read.Current());
      WfChain(c) && Tree(c) == r.value && Toks(c) + r.rest == read.Toks() + ts
    decreases |ts|, 1
  {
    OnParts(ts, stop, read.Current());
    if Stops(stop, ts[0]) {
      return One(read.operand);
    }
    if ts[0].OpTok? {
      var rest := OnlySentences(ts[1..], stop, Start);
      c := More(read.operand, ts[0].op, rest);
      WroteMore(read.operand, ts[0].op, rest, ts, ParseExpr(ts[1..], stop).rest);
    } else {
      OnTurn(ts, stop, read.Current());
      var o := OnlyTurns(ts, stop, read);
      c := OnlySentences(ParseTurn(ts[0], ts[1..], stop, read.Current()).rest, stop, Far(o));
    }
  }

  lemma WroteMore(o: Operand, op: BinopType, c: Chain, ts: seq<Token>, rest: seq<Token>)
    requires ts != [] && ts[0] == OpTok(op) && [] + ts[1..] == Toks(c) + rest
    ensures Toks(More(o, op, c)) + rest == OperandToks(o) + ts
    ensures Tree(More(o, op, c)) == PushDown(Binop(op, OperandTree(o), Tree(c), false))
  {
    TreeOfMore(o, op, c);
    MoreToks(o, op, c, rest);
    assert ts == [ts[0]] + ts[1..] && [] + ts[1..] == ts[1..];
  }

  lemma {:induction false} OnlyTurns(ts: seq<Token>, stop: Stop, read: Read) returns (o: Operand)
    requires ts != [] && read.Wf(ts) && ParseTurn(ts[0], ts[1..], stop, read.Current()).Ok?
    ensures var r := ParseTurn(ts[0], ts[1..], stop, read.Current());
      Wrote(o, r.value, read.Toks() + ts, r.rest)
    decreases |ts|, 0
  {
    assert ts == [ts[0]] + ts[1..];
    var first := OnlyOperands(ts[0], ts[1..], read);
    o := OnlySuffixes(ParseOperand(ts[0], ts[1..], read.Current()).rest, stop, first);
  }

  /** `o` is how an operand of this tree was written, from `before` up to `rest`. */
  predicate Wrote(o: Operand, e: Expr, before: seq<Token>, rest: seq<Token>) {
    && WfOperand(o) && (EndsInPath(o) ==> NoDot(rest))
    && OperandTree(o) == e && OperandToks(o) + rest == before
  }

  lemma {:induction false} OnlyOperands(t: Token, ts: seq<Token>, read: Read) returns (o: Operand)
    requires read.Wf([t] + ts) && ParseOperand(t, ts, read.Current()).Ok?
    ensures var r := ParseOperand(t, ts, read.Current());
      Wrote(o, r.value, read.Toks() + ([t] + ts), r.rest)
    decreases |ts|, 7
  {
    if t == OpenSquare {
      o := OnlyIndexes(ts, read.operand);
    } else if t == OpenRound && read.Start? {
      o := OnlyParens(ts);
      assert [] + ([OpenRound] + ts) == [OpenRound] + ts;
    } else if t == OpenRound {
      o := OnlyCalls(ts, read.operand);
    } else {
      o := OnlyAtoms(t, ts, read);
    }
  }

  lemma OnlyAtoms(t: Token, ts: seq<Token>, read: Read) returns (o: Operand)
    requires read.Wf([t] + ts) && t != OpenSquare && t != OpenRound && ParseOperand(t, ts, read.Current()).Ok?
    ensures var r := ParseOperand(t, ts, read.Current());
      Wrote(o, r.value, read.Toks() + ([t] + ts), r.rest)
  {
    var a := AtomOf(t, ts, read.Current());
    if read.Start? {
      o := Lit(a);
      assert [] + ([t] + ts) == [t] + ts;
    } else {
      o := Dropping(read.operand, a);
      DroppingToks(read.operand, a, ParseOperand(t, ts, read.Current()).rest);
    }
  }

  lemma {:induction false} OnlyIndexes(ts: seq<Token>, of: Operand) returns (o: Operand)
    requires WfOperand(of) && ParseExpr(ts, AtIndexEnd).Ok?
    ensures var r := ParseExpr(ts, AtIndexEnd);
      Wrote(o, Index(OperandTree(of), r.value), OperandToks(of) + ([OpenSquare] + ts), r.rest[1..])
    decreases |ts|, 6
  {
    var idx := OnlySentences(ts, AtIndexEnd, Start);
    o := Indexed(of, idx);
    WroteIndexed(of, idx, ts, ParseExpr(ts, AtIndexEnd).rest);
  }

  lemma WroteIndexed(of: Operand, idx: Chain, ts: seq<Token>, rest: seq<Token>)
    requires WfOperand(of) && WfChain(idx) && [] + ts == Toks(idx) + rest && rest != [] && rest[0] == CloseSquare
    ensures Wrote(Indexed(of, idx), Index(OperandTree(of), Tree(idx)), OperandToks(of) + ([OpenSquare] + ts), rest[1..])
  {
    IndexedToks(of, idx, rest[1..]);
    assert rest == [CloseSquare] + rest[1..] && [] + ts == ts;
  }

  lemma {:induction false} OnlyParens(ts: seq<Token>) returns (o: Operand)
    requires ParseExpr(ts, AtCloseRound).Ok?
    ensures var r := ParseExpr(ts, AtCloseRound);
      Wrote(o, MarkScoped(r.value), [OpenRound] + ts, r.rest[1..])
    decreases |ts|, 6
  {
    var inner := OnlySentences(ts, AtCloseRound, Start);
    o := Paren(inner);
    WroteParen(inner, ts, ParseExpr(ts, AtCloseRound).rest);
  }

  lemma WroteParen(inner: Chain, ts: seq<Token>, rest: seq<Token>)
    requires WfChain(inner) && [] + ts == Toks(inner) + rest && rest != [] && rest[0] == CloseRound
    ensures Wrote(Paren(inner), MarkScoped(Tree(inner)), [OpenRound] + ts, rest[1..])
  {
    ParenToks(inner, rest[1..]);
    assert rest == [CloseRound] + rest[1..] && [] + ts == ts;
  }

  lemma {:induction false} OnlyCalls(ts: seq<Token>, of: Operand) returns (o: Operand)
    requires WfOperand(of) && ParseCallArgs(ts).Ok?
    ensures var r := ParseCallArgs(ts);
      Wrote(o, Call(OperandTree(of), r.value), OperandToks(of) + ([OpenRound] + ts), r.rest)
    decreases |ts|, 6
  {
    var args := OnlyCallArgs(ts);
    o := Called(of, args);
    CalledToks(of, args, ParseCallArgs(ts).rest);
  }

  lemma AtomOf(t: Token, ts: seq<Token>, current: Current) returns (a: Atom)
    requires t != OpenSquare && t != OpenRound && ParseOperand(t, ts, current).Ok?
    ensures var r := ParseOperand(t, ts, current);
      && WfAtom(a) && AtomTree(a) == r.value && AtomToks(a) + r.rest == [t] + ts && (a.PathAtom? ==> NoDot(r.rest))
  {
    match t
    case BoolTok(b) => a := BoolAtom(b);
    case IntTok(v) => a := IntAtom(v);
    case NullTok => a := NullAtom;
    case Name(_) =>
      PathRead([t] + ts);
      a := PathAtom(ParsePath([t] + ts).value);
  }

  lemma {:induction false} OnlySuffixes(ts: seq<Token>, stop: Stop, o: Operand) returns (o': Operand)
    requires Far(o).Wf(ts) && ParseSuffixes(ts, stop, OperandTree(o)).Ok?
    ensures var r := ParseSuffixes(ts, stop, OperandTree(o));
      Wrote(o', r.value, OperandToks(o) + ts, r.rest)
    decreases |ts|
  {
    if !StartsSuffix(ts, stop) {
      return o;
    }
    var next := OnlySuffix(ts, o);
    o' := OnlySuffixes(ParseSuffix(ts[0], ts[1..], OperandTree(o)).rest, stop, next);
  }

  lemma OnlySuffix(ts: seq<Token>, o: Operand) returns (o': Operand)
    requires Far(o).Wf(ts) && ts != [] && (ts[0] == AsTok || ts[0] == Dot)
    requires ParseSuffix(ts[0], ts[1..], OperandTree(o)).Ok?
    ensures var r := ParseSuffix(ts[0], ts[1..], OperandTree(o));
      Wrote(o', r.value, OperandToks(o) + ts, r.rest)
  {
    var more := ts[1..];
    assert ts == [ts[0]] + more;
    if ts[0] == AsTok && more[0] == AutoTok {
      o' := CastAuto(o);
      SuffixToks(o, [], more[1..]);
      assert more == [AutoTok] + more[1..];
    } else {
      PathRead(more);
      var p := ParsePath(more);
      o' := if ts[0] == Dot then Dotted(o, p.value) else Cast(o, p.value);
      SuffixToks(o, p.value, p.rest);
    }
  }

  lemma {:induction false} OnlyCallArgs(ts: seq<Token>) returns (args: Args)
    requires ParseCallArgs(ts).Ok?
    ensures var r := ParseCallArgs(ts);
      WfArgs(args) && ArgsTrees(args) == r.value && ArgsToks(args) + ([CloseRound] + r.rest) == ts
    decreases |ts|, 5
  {
    if ts[0] == CloseRound {
      args := NoArgs;
      assert [] + ([CloseRound] + ts[1..]) == ts;
    } else {
      args := OnlyArgs(ts);
    }
  }

  lemma {:induction false} OnlyArgs(ts: seq<Token>) returns (args: Args)
    requires ParseArgs(ts).Ok?
    ensures var r := ParseArgs(ts);
      WfArgs(args) && !args.NoArgs? && ArgsTrees(args) == r.value && ArgsToks(args) + ([CloseRound] + r.rest) == ts
    decreases |ts|, 4
  {
    var first := OnlySentences(ts, AtCallArg, Start);
    var rest := ParseExpr(ts, AtCallArg).rest;
    assert rest == [rest[0]] + rest[1..];
    assert Toks(first) + rest == ts;
    if rest[0] == CloseRound {
      args := OneArg(first);
    } else {
      var tail := OnlyArgs(rest[1..]);
      args := MoreArgs(first, tail);
      ArgsToksThen(first, tail, [CloseRound] + ParseArgs(rest[1..]).rest);
    }
  }

  // ---------- both directions ----------

  /** What the expression parser accepts, what it makes of it, and what it leaves. */
  lemma ParserReadsGrammar(ts: seq<Token>, stop: Stop, e: Expr, rest: seq<Token>)
    ensures ParseExpr(ts, stop) == Ok(e, rest) <==>
      exists c :: WfChain(c) && Tree(c) == e && ts == Toks(c) + rest && rest != [] && Stops(stop, rest[0])
  {
    if ParseExpr(ts, stop) == Ok(e, rest) {
      var c := OnlySentences(ts, stop, Start);
      assert WfChain(c) && Tree(c) == e && ts == Toks(c) + rest;
    }
    if c :| WfChain(c) && Tree(c) == e && ts == Toks(c) + rest && rest != [] && Stops(stop, rest[0]) {
      ChainReads(c, stop, rest);
    }
  }

  // ---------- where an expression ends ----------

  const STOP_TOKENS: map<Stop, set<Token>> := map[
    AtSemicolon := {Semicolon}, AtCloseRound := {CloseRound}, AtOpenCurly := {OpenCurly},
    AtCallArg := {Comma, CloseRound}, AtArrayArg := {Comma, CloseCurly}, AtIndexEnd := {CloseSquare},
    AtStmtEnd := {Assign, Semicolon}
  ]

  /** A sentence is read up to a token that comes after it exactly if that is one at which the caller lets
      an expression end. */
  lemma ReadsUpTo(c: Chain, stop: Stop, t: Token, rest: seq<Token>)
    requires WfChain(c)
    ensures stop in STOP_TOKENS
    ensures ParseExpr(Toks(c) + ([t] + rest), stop) == Ok(Tree(c), [t] + rest) <==> t in STOP_TOKENS[stop]
  {
    if t in STOP_TOKENS[stop] {
      ChainReads(c, stop, [t] + rest);
    }
  }

  // ---------- single tokens ----------

  /** What the tokens mean that are an expression by themselves. */
  lemma TokensMean(v: nat, b: bool, x: string, stop: Stop, rest: seq<Token>)
    requires rest != [] && Stops(stop, rest[0])
    ensures ParseExpr([IntTok(v)] + rest, stop) == Ok(IntLit(v), rest)
    ensures ParseExpr([BoolTok(b)] + rest, stop) == Ok(BoolLit(b), rest)
    ensures ParseExpr([NullTok] + rest, stop) == Ok(NullLit, rest)
    ensures ParseExpr([Name(x)] + rest, stop) == Ok(Local([Ident(x)]), rest)
  {
    ReadsAtom(IntAtom(v), stop, rest);
    ReadsAtom(BoolAtom(b), stop, rest);
    ReadsAtom(NullAtom, stop, rest);
    ReadsAtom(PathAtom([Ident(x)]), stop, rest);
  }

  lemma ReadsAtom(a: Atom, stop: Stop, rest: seq<Token>)
    requires WfAtom(a) && rest != [] && Stops(stop, rest[0])
    ensures ParseExpr(AtomToks(a) + rest, stop) == Ok(AtomTree(a), rest)
  {
    var c := One(Operand.Lit(a));
    ChainReads(c, stop, rest);
    assert OpsOf(c) == [] && OperandsOf(c) == [AtomTree(a)];
    assert Tree(c) == AtomTree(a);
  }

  /** What the tokens mean that can follow a `.` in a path; `*` follows the pointer there. */
  lemma SegmentsMean(x: string, y: string, stop: Stop, rest: seq<Token>)
    requires rest != [] && Stops(stop, rest[0])
    ensures ParseExpr([Name(x), Dot, Name(y)] + rest, stop) == Ok(Local([Ident(x), Ident(y)]), rest)
    ensures ParseExpr([Name(x), Dot, NullTok] + rest, stop) == Ok(Local([Ident(x), NullSegment]), rest)
    ensures ParseExpr([Name(x), Dot, SizeofTok] + rest, stop) == Ok(Local([Ident(x), SizeofSegment]), rest)
    ensures ParseExpr([Name(x), Dot, OpTok(Mul)] + rest, stop) == Ok(Local([Ident(x), DerefSegment]), rest)
  {
    ReadsTwo(x, Ident(y), stop, rest);
    ReadsTwo(x, NullSegment, stop, rest);
    ReadsTwo(x, SizeofSegment, stop, rest);
    ReadsTwo(x, DerefSegment, stop, rest);
  }

  lemma ReadsTwo(x: string, seg: Segment, stop: Stop, rest: seq<Token>)
    requires rest != [] && Stops(stop, rest[0])
    ensures ParseExpr([Name(x), Dot, SegToken(seg)] + rest, stop) == Ok(Local([Ident(x), seg]), rest)
  {
    var p := [Ident(x), seg];
    assert p[1..] == [seg] && PathToks([seg]) == [SegToken(seg)];
    assert PathToks(p) == [Name(x), Dot, SegToken(seg)];
    ReadsAtom(PathAtom(p), stop, rest);
  }
}
