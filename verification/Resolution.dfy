/** What makes analysis refuse a function body: the uses of loops in it, each collected with the names of
    the loops written around it. */
module Resolution {
  import opened Options
  import opened Syntax
  import opened Defers
  import opened Analysis

  /** A `break` or `continue`, or a loop; `around` are the names of the loops around it, outermost first. */
  datatype Use =
    | JumpTo(name: Option<string>, around: seq<Option<string>>)
    | LoopIn(name: Option<string>, around: seq<Option<string>>)

  function UsesOfStmts(ss: seq<Stmt>, around: seq<Option<string>>): set<Use> {
    if ss == [] then {} else UsesOfStmt(ss[0], around) + UsesOfStmts(ss[1..], around)
  }

  function UsesOfBody(b: Body, around: seq<Option<string>>): set<Use> {
    UsesOfStmts(b.stmts, around)
  }

  function UsesOfStmt(s: Stmt, around: seq<Option<string>>): set<Use> {
    match s
    case Eval(_) => {}
    case Return(_, _) => {}
    case Control(_, _, name) => {JumpTo(name, around)}
    case While(_, name, _, body) => {LoopIn(name, around)} + UsesOfBody(body, around + [name])
    case If(main, elseIfs, otherwise) =>
      UsesOfClause(main, around) + UsesOfClauses(elseIfs, around) + UsesOfOtherwise(otherwise, around)
    case Defer(body) => UsesOfBody(body, around)
  }

  function UsesOfClause(c: Clause, around: seq<Option<string>>): set<Use> {
    UsesOfBody(c.body, around)
  }

  function UsesOfClauses(cs: seq<Clause>, around: seq<Option<string>>): set<Use> {
    if cs == [] then {} else UsesOfClause(cs[0], around) + UsesOfClauses(cs[1..], around)
  }

  function UsesOfOtherwise(o: Option<Body>, around: seq<Option<string>>): set<Use> {
    match o
    case None => {}
    case Some(b) => UsesOfBody(b, around)
  }

  /** An unnamed jump needs a loop around it, a named one a loop of that name; a named loop must not be
      inside one of its name. */
  predicate Allowed(u: Use) {
    match u
    case JumpTo(None, around) => around != []
    case JumpTo(Some(name), around) => Some(name) in around
    case LoopIn(None, _) => true
    case LoopIn(Some(name), around) => Some(name) !in around
  }

  predicate AllAllowed(us: set<Use>) {
    forall u <- us :: Allowed(u)
  }

  lemma AllowedUnion(a: set<Use>, b: set<Use>)
    ensures AllAllowed(a + b) <==> AllAllowed(a) && AllAllowed(b)
  {
    assert forall u <- a :: u in a + b;
    assert forall u <- b :: u in a + b;
  }

  function NamesOf(loops: seq<Loop>): seq<Option<string>> {
    seq(|loops|, i requires 0 <= i < |loops| => loops[i].name)
  }

  lemma FindByName(loops: seq<Loop>, name: Option<string>)
    ensures FindLoop(loops, name).Some? <==> Allowed(JumpTo(name, NamesOf(loops)))
    ensures (name.Some? ==> FindLoop(loops, name).None?) <==> Allowed(LoopIn(name, NamesOf(loops)))
  {
    FindLoopSound(loops, name);
    if name in NamesOf(loops) {
      var i :| 0 <= i < |loops| && NamesOf(loops)[i] == name;
      assert loops[i] in loops;
    }
    if FindLoop(loops, name).Some? && name.Some? {
      var i :| 0 <= i < |loops| && loops[i] == FindLoop(loops, name).value;
      assert NamesOf(loops)[i] == name;
    }
  }

  /** Analysis refuses a body for its jumps and its loop names, and for nothing else. */
  lemma {:induction false} BodyResolves(b: Body, loops: seq<Loop>)
    ensures ResolvesBody(b, loops) <==> AllAllowed(UsesOfBody(b, NamesOf(loops)))
    decreases BodyWeight(b), 0
  {
    StmtsResolve(b.stmts, loops);
  }

  lemma {:induction false} StmtsResolve(ss: seq<Stmt>, loops: seq<Loop>)
    ensures ResolvesStmts(ss, loops) <==> AllAllowed(UsesOfStmts(ss, NamesOf(loops)))
    decreases StmtsWeight(ss), 1
  {
    if ss != [] {
      StmtResolves(ss[0], loops);
      StmtsResolve(ss[1..], loops);
      AllowedUnion(UsesOfStmt(ss[0], NamesOf(loops)), UsesOfStmts(ss[1..], NamesOf(loops)));
    }
  }

  lemma {:induction false} StmtResolves(s: Stmt, loops: seq<Loop>)
    ensures ResolvesStmt(s, loops) <==> AllAllowed(UsesOfStmt(s, NamesOf(loops)))
    decreases StmtWeight(s), 0
  {
    var around := NamesOf(loops);
    match s
    case Control(_, _, name) =>
      FindByName(loops, name);
      assert JumpTo(name, around) in UsesOfStmt(s, around);
    case While(loop, name, _, body) =>
      FindByName(loops, name);
      BodyResolves(body, loops + [Loop(loop, name, body.id)]);
      assert NamesOf(loops + [Loop(loop, name, body.id)]) == around + [name];
      AllowedUnion({LoopIn(name, around)}, UsesOfBody(body, around + [name]));
      assert LoopIn(name, around) in {LoopIn(name, around)};
    case If(main, elseIfs, otherwise) =>
      IfResolves(main, elseIfs, otherwise, loops);
    case Defer(body) =>
      BodyResolves(body, loops);
    case _ =>
  }

  lemma {:induction false} IfResolves(main: Clause, elseIfs: seq<Clause>, otherwise: Option<Body>, loops: seq<Loop>)
    ensures ResolvesClause(main, loops) && ResolvesClauses(elseIfs, loops) && ResolvesOtherwise(otherwise, loops) <==>
            AllAllowed(UsesOfStmt(If(main, elseIfs, otherwise), NamesOf(loops)))
    decreases ClauseWeight(main) + ClausesWeight(elseIfs) + OtherwiseWeight(otherwise), 2
  {
    var around := NamesOf(loops);
    BodyResolves(main.body, loops);
    ClausesResolve(elseIfs, loops);
    if otherwise.Some? {
      BodyResolves(otherwise.value, loops);
    }
    AllowedUnion(UsesOfClause(main, around), UsesOfClauses(elseIfs, around));
    AllowedUnion(UsesOfClause(main, around) + UsesOfClauses(elseIfs, around), UsesOfOtherwise(otherwise, around));
  }

  lemma {:induction false} ClausesResolve(cs: seq<Clause>, loops: seq<Loop>)
    ensures ResolvesClauses(cs, loops) <==> AllAllowed(UsesOfClauses(cs, NamesOf(loops)))
    decreases ClausesWeight(cs), 1
  {
    if cs != [] {
      assert BodyWeight(cs[0].body) <= ClauseWeight(cs[0]) <= ClausesWeight(cs);
      BodyResolves(cs[0].body, loops);
      ClausesResolve(cs[1..], loops);
      AllowedUnion(UsesOfClause(cs[0], NamesOf(loops)), UsesOfClauses(cs[1..], NamesOf(loops)));
    }
  }
}
