/** What a function body means, and what a function's basic blocks do. Both are read through the
    history of actions and tests they perform; the answer to a test may depend on everything that
    happened before, so any interpretation of actions on a machine state is covered. */
module Semantics {
  import opened Options
  import opened Syntax
  import opened Defers
  import opened Emission

  datatype Event = Did(action: nat) | Tested(test: nat, answer: bool)

  type History = seq<Event>

  type Oracle = (History, nat) -> bool

  function AfterPieces(ps: seq<Piece>, h: History): History {
    if ps == [] then h
    else match ps[0]
      case Do(a) => AfterPieces(ps[1..], h + [Did(a)])
      case Slot(_) => AfterPieces(ps[1..], h)
  }

  // ---------- structured programs, with a defer stack at run time ----------

  /** A jump under way remembers the whole defer stack of the moment it was raised. */
  datatype Outcome = Normal | Jumped(site: nat, jump: Jump, held: seq<Frame>) | OutOfFuel

  datatype Result = Result(out: Outcome, h: History, fuel: nat)

  /** The result of a statement list, with the defers its body has registered by then. */
  datatype Partial = Partial(r: Result, defers: seq<Body>)

  /** Is a jump addressed to this loop? */
  predicate Catches(name: Option<string>, j: Jump) {
    j.Leave? && (j.name.None? || j.name == name)
  }

  /** Each loop test costs one unit of fuel. */
  function ExecStmts(ss: seq<Stmt>, frames: seq<Frame>, orc: Oracle, h: History, fuel: nat): (p: Partial)
    requires frames != []
    ensures p.r.fuel <= fuel
    ensures BodiesWeight(p.defers) <= BodiesWeight(frames[0].defers) + StmtsWeight(ss)
    decreases fuel, FramesWeight(frames) + StmtsWeight(ss), 2
  {
    var own := frames[0].defers;
    if ss == [] then Partial(Result(Normal, h, fuel), own)
    else match ss[0]
      case Return(site, v) => Partial(Result(Jumped(site, ReturnWith(v), frames), h, fuel), own)
      case Control(site, isBreak, name) =>
        Partial(Result(Jumped(site, Leave(isBreak, name), frames), h, fuel), own)
      case Defer(body) =>
        assert StmtWeight(ss[0]) == 1 + BodyWeight(body);
        HoldWeight(frames, body);
        ExecStmts(ss[1..], Hold(frames, body), orc, h, fuel)
      case _ =>
        var r := ExecStmt(ss[0], frames, orc, h, fuel);
        if r.out != Normal then Partial(r, own)
        else ExecStmts(ss[1..], frames, orc, r.h, r.fuel)
  }

  lemma HoldWeight(frames: seq<Frame>, d: Body)
    requires frames != []
    ensures BodiesWeight(Hold(frames, d)[0].defers) == BodiesWeight(frames[0].defers) + BodyWeight(d)
  {
    BodiesWeightConcat(frames[0].defers, [d]);
    assert [d][1..] == [];
  }

  /** A statement that neither jumps nor registers a defer by itself. */
  function ExecStmt(s: Stmt, frames: seq<Frame>, orc: Oracle, h: History, fuel: nat): (r: Result)
    requires frames != []
    ensures r.fuel <= fuel
    decreases fuel, FramesWeight(frames) + StmtWeight(s), 1
  {
    match s
    case Eval(ps) => Result(Normal, AfterPieces(ps, h), fuel)
    case While(_, name, guard, body) => ExecLoop(name, guard, body, frames, orc, h, fuel)
    case If(main, elseIfs, otherwise) => ExecIf(main, elseIfs, otherwise, frames, orc, h, fuel)
    case _ => Result(Normal, h, fuel)
  }

  /** A body runs its defers whichever way it is left: in the order of registration when it ends, in
      the opposite order when a jump leaves it. The jump then goes on outwards. */
  function ExecBody(b: Body, frames: seq<Frame>, orc: Oracle, h: History, fuel: nat): (r: Result)
    ensures r.fuel <= fuel
    decreases fuel, FramesWeight(frames) + BodyWeight(b), 0
  {
    Unwind(ExecStmts(b.stmts, [Frame(b.id, [])] + frames, orc, h, fuel), orc)
  }

  function Unwind(p: Partial, orc: Oracle): (r: Result)
    ensures r.fuel <= p.r.fuel
    decreases p.r.fuel, BodiesWeight(p.defers), 2
  {
    match p.r.out
    case OutOfFuel => p.r
    case Normal => ExecBodies(p.defers, orc, p.r.h, p.r.fuel)
    case Jumped(_, _, _) =>
      var q := ExecBodies(Reversed(p.defers), orc, p.r.h, p.r.fuel);
      if q.out == Normal then Result(p.r.out, q.h, q.fuel) else q
  }

  function ExecBodies(ds: seq<Body>, orc: Oracle, h: History, fuel: nat): (r: Result)
    ensures r.fuel <= fuel
    decreases fuel, BodiesWeight(ds), 1
  {
    if ds == [] then Result(Normal, h, fuel)
    else
      var r := ExecBody(ds[0], [], orc, h, fuel);
      if r.out != Normal then r else ExecBodies(ds[1..], orc, r.h, r.fuel)
  }

  function ExecLoop(name: Option<string>, guard: Operand, body: Body, frames: seq<Frame>,
                    orc: Oracle, h: History, fuel: nat): (r: Result)
    ensures r.fuel <= fuel
    decreases fuel, FramesWeight(frames) + BodyWeight(body) + 1, 0
  {
    if fuel == 0 then Result(OutOfFuel, h, 0)
    else
      var h1 := AfterPieces(guard.pieces, h);
      var answer := orc(h1, guard.result);
      var h2 := h1 + [Tested(guard.result, answer)];
      if !answer then Result(Normal, h2, fuel - 1)
      else
        ExecNext(name, guard, body, frames, orc, ExecBody(body, frames, orc, h2, fuel - 1))
  }

  /** What a loop does when its body has ended as `r`. */
  function ExecNext(name: Option<string>, guard: Operand, body: Body, frames: seq<Frame>, orc: Oracle, r: Result): (q: Result)
    ensures q.fuel <= r.fuel
    decreases r.fuel, FramesWeight(frames) + BodyWeight(body) + 1, 1
  {
    if r.out == Normal || (r.out.Jumped? && Catches(name, r.out.jump) && !r.out.jump.isBreak) then
      ExecLoop(name, guard, body, frames, orc, r.h, r.fuel)
    else if r.out.Jumped? && Catches(name, r.out.jump) then
      Result(Normal, r.h, r.fuel)
    else r
  }

  function ExecIf(main: Clause, elseIfs: seq<Clause>, otherwise: Option<Body>, frames: seq<Frame>,
                  orc: Oracle, h: History, fuel: nat): (r: Result)
    ensures r.fuel <= fuel
    decreases fuel, FramesWeight(frames) + ClauseWeight(main) + ClausesWeight(elseIfs) + OtherwiseWeight(otherwise), 2
  {
    var h1 := AfterPieces(main.guard.pieces, h);
    var answer := orc(h1, main.guard.result);
    var h2 := h1 + [Tested(main.guard.result, answer)];
    if answer then ExecBody(main.body, frames, orc, h2, fuel)
    else ExecElse(elseIfs, otherwise, frames, orc, h2, fuel)
  }

  function ExecElse(cs: seq<Clause>, otherwise: Option<Body>, frames: seq<Frame>, orc: Oracle, h: History, fuel: nat): (r: Result)
    ensures r.fuel <= fuel
    decreases fuel, FramesWeight(frames) + ClausesWeight(cs) + OtherwiseWeight(otherwise), 3
  {
    if cs != [] then ExecIf(cs[0], cs[1..], otherwise, frames, orc, h, fuel)
    else match otherwise
      case Some(b) => ExecBody(b, frames, orc, h, fuel)
      case None => Result(Normal, h, fuel)
  }

  // ---------- basic blocks ----------

  datatype End = Returned(value: Option<nat>) | FellOff

  datatype Config = At(block: nat, offset: nat, h: History) | Done(end: End, h: History)

  function Step(blocks: seq<Block>, orc: Oracle, c: Config): Config {
    match c
    case Done(_, _) => c
    case At(b, o, h) =>
      if b >= |blocks| || o >= |blocks[b]| then Done(FellOff, h)
      else match blocks[b][o]
        case Act(a) => At(b, o + 1, h + [Did(a)])
        case Alloca(_) => At(b, o + 1, h)
        case Br(t) => At(t, 0, h)
        case CondBr(test, t, f) =>
          var answer := orc(h, test);
          At(if answer then t else f, 0, h + [Tested(test, answer)])
        case Ret(v) => Done(Returned(v), h)
  }

  function Run(blocks: seq<Block>, orc: Oracle, c: Config, n: nat): Config
    decreases n
  {
    if n == 0 then c else Run(blocks, orc, Step(blocks, orc, c), n - 1)
  }

  lemma {:induction false} RunAdd(blocks: seq<Block>, orc: Oracle, c: Config, m: nat, n: nat)
    ensures Run(blocks, orc, c, m + n) == Run(blocks, orc, Run(blocks, orc, c, m), n)
    decreases m
  {
    if m > 0 {
      RunAdd(blocks, orc, Step(blocks, orc, c), m - 1, n);
    }
  }

  lemma {:induction false} RunDone(blocks: seq<Block>, orc: Oracle, c: Config, n: nat)
    requires c.Done?
    ensures Run(blocks, orc, c, n) == c
    decreases n
  {
    if n > 0 {
      RunDone(blocks, orc, c, n - 1);
    }
  }
}
