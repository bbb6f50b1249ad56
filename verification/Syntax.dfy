/** The statement language of a function body, as the front end hands it to analysis.

    Every body, loop, `return`, `break` and `continue` carries a number that stands for the
    address of its syntax node: analysis hangs its results on these numbers, and two nodes are
    the same node exactly when their numbers agree. */
module Syntax {
  import opened Options

  /** What lowering one expression emits, in order: actions, and requests for a stack slot. */
  datatype Piece = Do(action: nat) | Slot(ty: nat)

  /** An expression whose value is used: its pieces and the value they leave. */
  datatype Operand = Operand(pieces: seq<Piece>, result: nat)

  datatype Body = Body(id: nat, stmts: seq<Stmt>)

  datatype Clause = Clause(guard: Operand, body: Body)

  datatype Stmt =
    | Eval(pieces: seq<Piece>)
    | Return(site: nat, value: Option<Operand>)
    | Control(site: nat, isBreak: bool, name: Option<string>)
    | While(loop: nat, name: Option<string>, guard: Operand, body: Body)
    | If(main: Clause, elseIfs: seq<Clause>, otherwise: Option<Body>)
    | Defer(body: Body)

  // ---------- expressions ----------

  /** The types of the slots that an expression asks for. */
  function SlotTypes(ps: seq<Piece>): seq<nat> {
    if ps == [] then []
    else match ps[0]
      case Slot(t) => [t] + SlotTypes(ps[1..])
      case Do(_) => SlotTypes(ps[1..])
  }

  /** What an expression does, in order. */
  function Actions(ps: seq<Piece>): seq<nat> {
    if ps == [] then []
    else match ps[0]
      case Slot(_) => Actions(ps[1..])
      case Do(a) => [a] + Actions(ps[1..])
  }

  // ---------- size ----------

  function StmtsWeight(ss: seq<Stmt>): nat {
    if ss == [] then 0 else StmtWeight(ss[0]) + StmtsWeight(ss[1..])
  }

  function BodyWeight(b: Body): (w: nat)
    ensures w >= 1
  {
    1 + StmtsWeight(b.stmts)
  }

  function StmtWeight(s: Stmt): (w: nat)
    ensures w >= 1
  {
    match s
    case Eval(_) => 1
    case Return(_, _) => 1
    case Control(_, _, _) => 1
    case While(_, _, _, body) => 2 + BodyWeight(body)
    case If(main, elseIfs, otherwise) =>
      3 + ClauseWeight(main) + ClausesWeight(elseIfs) + OtherwiseWeight(otherwise)
    case Defer(body) => 1 + BodyWeight(body)
  }

  function ClauseWeight(c: Clause): (w: nat)
    ensures w >= 2
  {
    1 + BodyWeight(c.body)
  }

  function ClausesWeight(cs: seq<Clause>): nat {
    if cs == [] then 0 else ClauseWeight(cs[0]) + ClausesWeight(cs[1..])
  }

  function OtherwiseWeight(o: Option<Body>): nat {
    match o
    case None => 0
    case Some(b) => BodyWeight(b)
  }

  function BodiesWeight(ds: seq<Body>): nat {
    if ds == [] then 0 else BodyWeight(ds[0]) + BodiesWeight(ds[1..])
  }

  lemma BodiesWeightConcat(a: seq<Body>, b: seq<Body>)
    ensures BodiesWeight(a + b) == BodiesWeight(a) + BodiesWeight(b)
  {
    if a == [] {
      assert a + b == b;
    } else {
      assert (a + b)[0] == a[0] && (a + b)[1..] == a[1..] + b;
      BodiesWeightConcat(a[1..], b);
    }
  }

  // ---------- node numbers ----------

  function StmtsIds(ss: seq<Stmt>): set<nat> {
    if ss == [] then {} else StmtIds(ss[0]) + StmtsIds(ss[1..])
  }

  function BodyIds(b: Body): set<nat> {
    {b.id} + StmtsIds(b.stmts)
  }

  function StmtIds(s: Stmt): set<nat> {
    match s
    case Eval(_) => {}
    case Return(site, _) => {site}
    case Control(site, _, _) => {site}
    case While(loop, _, _, body) => {loop} + BodyIds(body)
    case If(main, elseIfs, otherwise) =>
      ClauseIds(main) + ClausesIds(elseIfs) + OtherwiseIds(otherwise)
    case Defer(body) => BodyIds(body)
  }

  function ClauseIds(c: Clause): set<nat> {
    BodyIds(c.body)
  }

  function ClausesIds(cs: seq<Clause>): set<nat> {
    if cs == [] then {} else ClauseIds(cs[0]) + ClausesIds(cs[1..])
  }

  function OtherwiseIds(o: Option<Body>): set<nat> {
    match o
    case None => {}
    case Some(b) => BodyIds(b)
  }

  function BodiesIds(ds: seq<Body>): set<nat> {
    if ds == [] then {} else BodyIds(ds[0]) + BodiesIds(ds[1..])
  }

  /** No two nodes share a number. */
  predicate DistinctStmts(ss: seq<Stmt>) {
    ss == [] || (DistinctStmt(ss[0]) && StmtIds(ss[0]) !! StmtsIds(ss[1..]) && DistinctStmts(ss[1..]))
  }

  predicate DistinctBody(b: Body) {
    b.id !in StmtsIds(b.stmts) && DistinctStmts(b.stmts)
  }

  predicate DistinctStmt(s: Stmt) {
    match s
    case Eval(_) => true
    case Return(_, _) => true
    case Control(_, _, _) => true
    case While(loop, _, _, body) => loop !in BodyIds(body) && DistinctBody(body)
    case If(main, elseIfs, otherwise) =>
      && DistinctClause(main) && DistinctClauses(elseIfs) && DistinctOtherwise(otherwise)
      && ClauseIds(main) !! ClausesIds(elseIfs)
      && (ClauseIds(main) + ClausesIds(elseIfs)) !! OtherwiseIds(otherwise)
    case Defer(body) => DistinctBody(body)
  }

  predicate DistinctClause(c: Clause) {
    DistinctBody(c.body)
  }

  predicate DistinctClauses(cs: seq<Clause>) {
    cs == [] || (DistinctClause(cs[0]) && ClauseIds(cs[0]) !! ClausesIds(cs[1..]) && DistinctClauses(cs[1..]))
  }

  predicate DistinctOtherwise(o: Option<Body>) {
    match o
    case None => true
    case Some(b) => DistinctBody(b)
  }

  // ---------- the defers a statement list registers ----------

  /** Every defer of `ss` itself, in textual order; those of nested bodies belong to those bodies. */
  function Registered(ss: seq<Stmt>): (ds: seq<Body>)
    ensures BodiesWeight(ds) <= StmtsWeight(ss)
  {
    if ss == [] then []
    else if ss[0].Defer? then [ss[0].body] + Registered(ss[1..])
    else Registered(ss[1..])
  }

  /** A statement list runs to its end unless one of its own statements is a jump. */
  predicate FallsThrough(ss: seq<Stmt>) {
    forall i :: 0 <= i < |ss| ==> !ss[i].Return? && !ss[i].Control?
  }
}
