/** What lowering a body appends to a function under construction, as a function of the builder's
    state. The backend's methods are proved to compute exactly this. */
module Emission {
  import opened Options
  import opened Syntax
  import opened Defers

  datatype Instr =
    | Act(action: nat)
    | Alloca(ty: nat)
    | Br(target: nat)
    | CondBr(test: nat, onTrue: nat, onFalse: nat)
    | Ret(value: Option<nat>)

  type Block = seq<Instr>

  datatype LoopBlocks = LoopBlocks(continueBlock: nat, breakBlock: nat)

  /** The blocks of the current function, the builder's position (always the end of a block), the
      two blocks the backend remembers, and the jump targets last written to each loop. */
  datatype RawGen = Gen(
    blocks: seq<Block>, pos: nat, codeBlock: nat, definitions: nat, targets: map<nat, LoopBlocks>)
  {
    predicate InRange() {
      pos < |blocks| && codeBlock < |blocks| && definitions < |blocks|
    }

    /** The builder stands at the code block, which is not the one that collects stack slots. */
    predicate Settled() {
      pos == codeBlock && pos != definitions
    }
  }

  type Gen = g: RawGen | g.InRange() witness RawGen.Gen([[]], 0, 0, 0, map[])

  // ---------- builder primitives ----------

  function Append(g: Gen, i: Instr): Gen {
    g.(blocks := g.blocks[g.pos := g.blocks[g.pos] + [i]])
  }

  function AppendBlock(g: Gen): Gen {
    g.(blocks := g.blocks + [[]])
  }

  /** The three blocks of a loop (condition, body, end) or of an `if` (branch, alternative, end). */
  function AppendThree(g: Gen): (r: Gen)
    ensures |r.blocks| == |g.blocks| + 3 && r.definitions == g.definitions && r.targets == g.targets
    ensures r.pos == g.pos && r.codeBlock == g.codeBlock
    ensures forall i :: 0 <= i < |r.blocks| ==> r.blocks[i] == if i < |g.blocks| then g.blocks[i] else []
  {
    AppendBlock(AppendBlock(AppendBlock(g)))
  }

  /** Makes `b` both the code block and the builder's position. */
  function MoveTo(g: Gen, b: nat): Gen
    requires b < |g.blocks|
  {
    g.(pos := b, codeBlock := b)
  }

  /** A slot goes to the definitions block; the builder then returns to the code block. */
  function AppendSlot(g: Gen, ty: nat): Gen {
    Append(g.(pos := g.definitions), Alloca(ty)).(pos := g.codeBlock)
  }

  function EmitPieces(ps: seq<Piece>, g: Gen): (r: Gen)
    ensures |r.blocks| == |g.blocks| && r.targets == g.targets && r.definitions == g.definitions
  {
    if ps == [] then g
    else match ps[0]
      case Do(a) => EmitPieces(ps[1..], Append(g, Act(a)))
      case Slot(t) => EmitPieces(ps[1..], AppendSlot(g, t))
  }

  // ---------- statements ----------

  /** `open` tells whether the code after the body can still be reached from it. */
  datatype Emitted = Emitted(g: Gen, open: bool)

  /** Where a jump goes: out of the function, or to a loop. */
  datatype Jump =
    | Leave(isBreak: bool, name: Option<string>)
    | ReturnWith(value: Option<Operand>)

  datatype Goal = Exit | ToLoop(loop: Loop) | NoLoop

  function GoalOf(j: Jump, loops: seq<Loop>): Goal {
    match j
    case ReturnWith(_) => Exit
    case Leave(_, name) =>
      match FindLoop(loops, name)
      case Some(l) => ToLoop(l)
      case None => NoLoop
  }

  /** The body whose defers are the last to run. */
  function LimitOf(goal: Goal): Option<nat> {
    match goal
    case ToLoop(l) => Some(l.body)
    case _ => None
  }

  /** The terminator of a jump, after its defers. */
  function EmitTerminator(j: Jump, goal: Goal, g: Gen): (r: Gen)
    ensures |r.blocks| == |g.blocks|
  {
    match j
    case ReturnWith(None) => Append(g, Ret(None))
    case ReturnWith(Some(v)) => Append(EmitPieces(v.pieces, g), Ret(Some(v.result)))
    case Leave(isBreak, _) =>
      if goal.ToLoop? && goal.loop.id in g.targets then
        var t := g.targets[goal.loop.id];
        Append(g, Br(if isBreak then t.breakBlock else t.continueBlock))
      else g
  }

  function EmitJump(j: Jump, goal: Goal, ds: seq<Body>, g: Gen): (r: Gen)
    ensures |r.blocks| >= |g.blocks|
    decreases BodiesWeight(ds), 2
  {
    EmitTerminator(j, goal, EmitBodies(ds, g))
  }

  /** Replaying defers: each body is lowered again, on its own. */
  function EmitBodies(ds: seq<Body>, g: Gen): (r: Gen)
    ensures |r.blocks| >= |g.blocks|
    decreases BodiesWeight(ds), 1
  {
    if ds == [] then g else EmitBodies(ds[1..], EmitBody(ds[0], [], [], g).g)
  }

  function EmitBody(b: Body, frames: seq<Frame>, loops: seq<Loop>, g: Gen): (e: Emitted)
    ensures |e.g.blocks| >= |g.blocks|
    decreases FramesWeight(frames) + BodyWeight(b), 0
  {
    var e := EmitStmts(b.stmts, [Frame(b.id, [])] + frames, loops, g);
    if e.open then Emitted(EmitBodies(Registered(b.stmts), e.g), true) else e
  }

  function EmitStmts(ss: seq<Stmt>, frames: seq<Frame>, loops: seq<Loop>, g: Gen): (e: Emitted)
    requires frames != []
    ensures |e.g.blocks| >= |g.blocks|
    decreases FramesWeight(frames) + StmtsWeight(ss), 0
  {
    if ss == [] then Emitted(g, true)
    else match ss[0]
      case Eval(ps) => EmitStmts(ss[1..], frames, loops, EmitPieces(ps, g))
      case Return(_, v) =>
        var j := ReturnWith(v);
        Emitted(EmitJump(j, Exit, DefersUpTo(frames, None), g), false)
      case Control(_, isBreak, name) =>
        var j := Leave(isBreak, name);
        var goal := GoalOf(j, loops);
        Emitted(EmitJump(j, goal, DefersUpTo(frames, LimitOf(goal)), g), false)
      case While(id, name, guard, body) =>
        assert StmtWeight(ss[0]) == 2 + BodyWeight(body);
        EmitStmts(ss[1..], frames, loops, EmitWhile(id, name, guard, body, frames, loops, g))
      case If(main, elseIfs, otherwise) =>
        assert StmtWeight(ss[0]) == 3 + ClauseWeight(main) + ClausesWeight(elseIfs) + OtherwiseWeight(otherwise);
        EmitStmts(ss[1..], frames, loops, EmitIf(main, elseIfs, otherwise, frames, loops, g))
      case Defer(body) =>
        assert StmtWeight(ss[0]) == 1 + BodyWeight(body);
        EmitStmts(ss[1..], Hold(frames, body), loops, g)
  }

  /** Three blocks, the loop's targets, the jump to its condition, the condition; the builder ends
      in the block of the loop's body. */
  function OpenWhile(id: nat, guard: Operand, g: Gen): (r: Gen)
    ensures |r.blocks| == |g.blocks| + 3
  {
    var n := |g.blocks|;
    var g1 := AppendThree(g);
    var g2 := g1.(targets := g1.targets[id := LoopBlocks(n, n + 2)]);
    var g3 := EmitPieces(guard.pieces, MoveTo(Append(g2, Br(n)), n));
    MoveTo(Append(g3, CondBr(guard.result, n + 1, n + 2)), n + 1)
  }

  /** Code that can still be reached jumps on to `target`. */
  function CloseWith(e: Emitted, target: nat): (r: Gen)
    ensures |r.blocks| == |e.g.blocks|
  {
    if e.open then Append(e.g, Br(target)) else e.g
  }

  function EmitWhile(id: nat, name: Option<string>, guard: Operand, body: Body, frames: seq<Frame>, loops: seq<Loop>,
                     g: Gen): (r: Gen)
    ensures |r.blocks| >= |g.blocks|
    decreases FramesWeight(frames) + BodyWeight(body) + 1, 0
  {
    var n := |g.blocks|;
    var e := EmitBody(body, frames, loops + [Loop(id, name, body.id)], OpenWhile(id, guard, g));
    MoveTo(CloseWith(e, n), n + 2)
  }

  /** One guarded branch of an `if`: test, branch body, and on to the block of the alternative. */
  function EmitArm(c: Clause, thenBlock: nat, elseBlock: nat, endBlock: nat, frames: seq<Frame>, loops: seq<Loop>,
                   g: Gen): (r: Gen)
    requires thenBlock < |g.blocks| && elseBlock < |g.blocks|
    ensures |r.blocks| >= |g.blocks|
    decreases FramesWeight(frames) + ClauseWeight(c), 0
  {
    var g1 := Append(EmitPieces(c.guard.pieces, g), CondBr(c.guard.result, thenBlock, elseBlock));
    MoveTo(CloseWith(EmitBody(c.body, frames, loops, MoveTo(g1, thenBlock)), endBlock), elseBlock)
  }

  function EmitIf(main: Clause, elseIfs: seq<Clause>, otherwise: Option<Body>, frames: seq<Frame>, loops: seq<Loop>,
                  g: Gen): (r: Gen)
    ensures |r.blocks| >= |g.blocks|
    decreases FramesWeight(frames) + ClauseWeight(main) + ClausesWeight(elseIfs) + OtherwiseWeight(otherwise) + 1, 0
  {
    var n := |g.blocks|;
    var g1 := EmitArm(main, n, n + 1, n + 2, frames, loops, AppendThree(g));
    EmitElse(elseIfs, otherwise, n + 2, frames, loops, g1)
  }

  /** The rest of an `if`, from the block of the current alternative to the block after the `if`. */
  function EmitElse(cs: seq<Clause>, otherwise: Option<Body>, endBlock: nat, frames: seq<Frame>, loops: seq<Loop>,
                    g: Gen): (r: Gen)
    requires endBlock < |g.blocks|
    ensures |r.blocks| >= |g.blocks|
    decreases FramesWeight(frames) + ClausesWeight(cs) + OtherwiseWeight(otherwise), 1
  {
    if cs != [] then
      var n := |g.blocks|;
      var g1 := EmitArm(cs[0], n + 1, n, endBlock, frames, loops, AppendBlock(AppendBlock(g)));
      EmitElse(cs[1..], otherwise, endBlock, frames, loops, g1)
    else
      match otherwise
      case None => MoveTo(Append(g, Br(endBlock)), endBlock)
      case Some(b) => MoveTo(CloseWith(EmitBody(b, frames, loops, g), endBlock), endBlock)
  }
}
