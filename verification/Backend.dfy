/** The backend: it walks an analysed body and drives the builder, reading off the syntax nodes what
    analysis left there. */
module Backend {
  import opened Options
  import opened Syntax
  import opened Defers
  import opened Emission
  import opened Growth
  import opened Annotations

  /** The bodies and loops around the code being lowered are known to analysis only; their defers
      carry notes that serve wherever they are replayed. */
  ghost predicate Around(t: Notes, frames: seq<Frame>, loops: seq<Loop>) {
    && NamesDistinct(loops)
    && forall f, d :: f in frames && d in f.defers ==> ReplayNoted(t, d)
  }

  ghost predicate ReplayNoted(t: Notes, d: Body) {
    Replayable(d) && AnnotatedBody(t, d, [], [])
  }

  lemma AroundDefers(t: Notes, frames: seq<Frame>, loops: seq<Loop>, to: Option<nat>)
    requires Around(t, frames, loops)
    ensures forall d :: d in DefersUpTo(frames, to) ==> ReplayNoted(t, d)
  {
    forall d | d in DefersUpTo(frames, to)
      ensures ReplayNoted(t, d)
    {
      DefersUpToMembers(frames, to, d);
    }
  }

  lemma AroundHold(t: Notes, frames: seq<Frame>, loops: seq<Loop>, d: Body)
    requires frames != [] && Around(t, frames, loops) && AnnotatedBody(t, d, frames, loops) && Replayable(d)
    ensures Around(t, Hold(frames, d), loops)
  {
    DeferLocal(t, d, frames, loops);
    var h := Hold(frames, d);
    forall f, e | f in h && e in f.defers
      ensures ReplayNoted(t, e)
    {
      if f == h[0] && e != d {
        assert frames[0] in frames && e in frames[0].defers;
      }
    }
  }

  lemma AroundInner(t: Notes, frames: seq<Frame>, loops: seq<Loop>, id: nat)
    requires Around(t, frames, loops)
    ensures Around(t, [Frame(id, [])] + frames, loops)
  {
  }

  lemma {:induction false} RegisteredNoted(t: Notes, ss: seq<Stmt>, frames: seq<Frame>, loops: seq<Loop>, inDefer: bool)
    requires frames != [] && AnnotatedStmts(t, ss, frames, loops) && NamesDistinct(loops)
    requires ConfinedStmts(ss, loops, inDefer) && DistinctStmts(ss)
    ensures forall d :: d in Registered(ss) ==> ReplayNoted(t, d)
    decreases |ss|
  {
    if ss != [] {
      RegisteredNoted(t, ss[1..], StepFrames(ss[0], frames), loops, inDefer);
      if ss[0].Defer? {
        DeferLocal(t, ss[0].body, frames, loops);
      }
    }
  }

  lemma PickBody(ds: seq<Body>, i: nat)
    requires i < |ds|
    ensures ds[i] in ds && ds[i..] != [] && ds[i..][0] == ds[i] && ds[i..][1..] == ds[i + 1..]
    ensures BodyWeight(ds[i]) <= BodiesWeight(ds)
  {
    if i > 0 {
      PickBody(ds[1..], i - 1);
    }
  }

  /** What the walk knows about the statements still ahead of it. */
  ghost predicate Ahead(t: Notes, ss: seq<Stmt>, frames: seq<Frame>, loops: seq<Loop>, inDefer: bool) {
    && frames != [] && Around(t, frames, loops) && AnnotatedStmts(t, ss, frames, loops)
    && ConfinedStmts(ss, loops, inDefer) && DistinctStmts(ss)
  }

  lemma AheadStep(t: Notes, ss: seq<Stmt>, frames: seq<Frame>, loops: seq<Loop>, inDefer: bool)
    requires ss != [] && Ahead(t, ss, frames, loops, inDefer)
    ensures Ahead(t, ss[1..], StepFrames(ss[0], frames), loops, inDefer)
    ensures FramesWeight(StepFrames(ss[0], frames)) + StmtsWeight(ss[1..]) <= FramesWeight(frames) + StmtsWeight(ss)
    ensures StmtWeight(ss[0]) <= StmtsWeight(ss)
    ensures AnnotatedStmt(t, ss[0], frames, loops) && ConfinedStmt(ss[0], loops, inDefer) && DistinctStmt(ss[0])
  {
    assert AnnotatedStmt(t, ss[0], frames, loops) && ConfinedStmt(ss[0], loops, inDefer) && DistinctStmt(ss[0]);
    if ss[0].Defer? {
      AroundHold(t, frames, loops, ss[0].body);
    }
  }

  lemma ClausesStep(t: Notes, cs: seq<Clause>, frames: seq<Frame>, loops: seq<Loop>, inDefer: bool)
    requires cs != [] && AnnotatedClauses(t, cs, frames, loops)
    requires ConfinedClauses(cs, loops, inDefer) && DistinctClauses(cs)
    ensures AnnotatedClause(t, cs[0], frames, loops) && ConfinedClause(cs[0], loops, inDefer) && DistinctClause(cs[0])
    ensures AnnotatedClauses(t, cs[1..], frames, loops) && ConfinedClauses(cs[1..], loops, inDefer) && DistinctClauses(cs[1..])
    ensures ClausesWeight(cs) == ClauseWeight(cs[0]) + ClausesWeight(cs[1..])
  {
  }

  class LlvmBackend {
    const notes: Notes

    var blocks: seq<Block>
    var builder: nat
    var codeBlock: nat
    var definitions: nat
    var targets: map<nat, LoopBlocks>

    ghost predicate Valid()
      reads this
    {
      builder < |blocks| && codeBlock < |blocks| && definitions < |blocks|
    }

    function State(): Gen
      requires Valid()
      reads this
    {
      Gen(blocks, builder, codeBlock, definitions, targets)
    }

    /** A function with its entry and code blocks; the entry block collects stack slots. */
    constructor (notes: Notes)
      ensures this.notes == notes && Valid() && State() == Gen([[], []], 0, 0, 0, map[])
    {
      this.notes := notes;
      blocks, builder, codeBlock, definitions, targets := [[], []], 0, 0, 0, map[];
    }

    // ---------- builder primitives ----------

    method AppendBasicBlock() returns (b: nat)
      requires Valid()
      modifies this`blocks
      ensures Valid() && State() == AppendBlock(old(State())) && b == |old(blocks)|
    {
      b := |blocks|;
      blocks := blocks + [[]];
    }

    method AppendThreeBlocks() returns (b0: nat, b1: nat, b2: nat)
      requires Valid()
      modifies this`blocks
      ensures Valid() && State() == AppendThree(old(State()))
      ensures b0 == |old(blocks)| && b1 == b0 + 1 && b2 == b0 + 2
    {
      b0 := AppendBasicBlock();
      b1 := AppendBasicBlock();
      b2 := AppendBasicBlock();
    }

    method Build(i: Instr)
      requires Valid()
      modifies this`blocks
      ensures Valid() && State() == Append(old(State()), i)
    {
      blocks := blocks[builder := blocks[builder] + [i]];
    }

    /** Makes `b` the code block and positions the builder at its end. */
    method Position(b: nat)
      requires Valid() && b < |blocks|
      modifies this`builder, this`codeBlock
      ensures Valid() && State() == MoveTo(old(State()), b)
    {
      builder := b;
      codeBlock := b;
    }

    method BuildAlloca(ty: nat)
      requires Valid()
      modifies this`blocks, this`builder
      ensures Valid() && State() == AppendSlot(old(State()), ty)
      ensures blocks == old(blocks)[definitions := old(blocks)[definitions] + [Alloca(ty)]] && builder == codeBlock
    {
      builder := definitions;
      Build(Alloca(ty));
      builder := codeBlock;
    }

    method Pieces(ps: seq<Piece>)
      requires Valid()
      modifies this`blocks, this`builder
      ensures Valid() && State() == EmitPieces(ps, old(State()))
    {
      var i := 0;
      while i < |ps|
        invariant 0 <= i <= |ps| && Valid()
        invariant EmitPieces(ps, old(State())) == EmitPieces(ps[i..], State())
      {
        match ps[i] {
          case Do(a) => Build(Act(a));
          case Slot(t) => BuildAlloca(t);
        }
        i := i + 1;
      }
    }

    // ---------- bodies ----------

    method BodyBreak(ds: seq<Body>)
      requires Valid() && forall d :: d in ds ==> ReplayNoted(notes, d)
      modifies this
      ensures Valid() && State() == EmitBodies(ds, old(State()))
      decreases BodiesWeight(ds), 1
    {
      var i := 0;
      while i < |ds|
        invariant 0 <= i <= |ds| && Valid()
        invariant EmitBodies(ds, old(State())) == EmitBodies(ds[i..], State())
      {
        PickBody(ds, i);
        var _ := LowerBody(ds[i], [], [], true);
        i := i + 1;
      }
    }

    /** Tells whether the code after the body can be reached from it. */
    method LowerBody(b: Body, ghost frames: seq<Frame>, ghost loops: seq<Loop>, ghost inDefer: bool) returns (open: bool)
      requires Valid() && AnnotatedBody(notes, b, frames, loops) && Around(notes, frames, loops)
      requires ConfinedBody(b, loops, inDefer) && DistinctBody(b)
      modifies this
      ensures Valid() && Emitted(State(), open) == EmitBody(b, frames, loops, old(State()))
      decreases FramesWeight(frames) + BodyWeight(b), 0
    {
      ghost var inner := [Frame(b.id, [])] + frames;
      ghost var fs := inner;
      ghost var all := EmitStmts(b.stmts, inner, loops, State());
      AroundInner(notes, frames, loops, b.id);
      var i := 0;
      while i < |b.stmts|
        invariant 0 <= i <= |b.stmts| && Valid()
        invariant Ahead(notes, b.stmts[i..], fs, loops, inDefer)
        invariant FramesWeight(fs) + StmtsWeight(b.stmts[i..]) < FramesWeight(frames) + BodyWeight(b)
        invariant all == EmitStmts(b.stmts[i..], fs, loops, State())
      {
        var s := b.stmts[i];
        assert b.stmts[i..][0] == s && b.stmts[i..][1..] == b.stmts[i + 1..];
        EmitStmtsUnfold(b.stmts[i..], fs, loops, State());
        AheadStep(notes, b.stmts[i..], fs, loops, inDefer);
        var jumped := LowerStmt(s, fs, loops, inDefer);
        if jumped {
          return false;
        }
        fs := StepFrames(s, fs);
        i := i + 1;
      }
      RegisteredNoted(notes, b.stmts, inner, loops, inDefer);
      BodyBreak(notes.bodyDefers[b.id]);
      return true;
    }

    /** Lowers one statement, and tells whether it was a jump. A defer lowers to nothing. */
    method LowerStmt(s: Stmt, ghost frames: seq<Frame>, ghost loops: seq<Loop>, ghost inDefer: bool) returns (jumped: bool)
      requires Valid() && frames != [] && Around(notes, frames, loops) && AnnotatedStmt(notes, s, frames, loops)
      requires ConfinedStmt(s, loops, inDefer) && DistinctStmt(s)
      modifies this
      ensures Valid() && State() == StepStmt(s, frames, loops, old(State()))
      ensures jumped == (s.Return? || s.Control?)
      decreases FramesWeight(frames) + StmtWeight(s), 1
    {
      match s {
        case Eval(ps) =>
          Pieces(ps);
          return false;
        case Return(site, value) =>
          StmtReturn(site, value, frames, loops);
          return true;
        case Control(site, isBreak, _) =>
          StmtLoopControl(site, isBreak, s.name, frames, loops);
          return true;
        case While(loop, _, guard, body) =>
          StmtWhile(loop, s.name, guard, body, frames, loops, inDefer);
          return false;
        case If(main, elseIfs, otherwise) =>
          StmtIf(main, elseIfs, otherwise, frames, loops, inDefer);
          return false;
        case Defer(_) =>
          return false;
      }
    }

    method StmtReturn(site: nat, value: Option<Operand>, ghost frames: seq<Frame>, ghost loops: seq<Loop>)
      requires Valid() && Around(notes, frames, loops)
      requires site in notes.siteDefers && notes.siteDefers[site] == DefersUpTo(frames, None)
      modifies this
      ensures Valid() && State() == EmitJump(ReturnWith(value), Exit, DefersUpTo(frames, None), old(State()))
      decreases FramesWeight(frames), 2
    {
      AroundDefers(notes, frames, loops, None);
      BodyBreak(notes.siteDefers[site]);
      match value {
        case Some(v) =>
          Pieces(v.pieces);
          Build(Ret(Some(v.result)));
        case None =>
          Build(Ret(None));
      }
    }

    /** `break` and `continue`: the defers, then a branch to the block now recorded for the loop. */
    method StmtLoopControl(site: nat, isBreak: bool, ghost name: Option<string>, ghost frames: seq<Frame>, ghost loops: seq<Loop>)
      requires Valid() && Around(notes, frames, loops)
      requires FindLoop(loops, name).Some? && site in notes.siteLoop && notes.siteLoop[site] == FindLoop(loops, name).value
      requires site in notes.siteDefers
      requires notes.siteDefers[site] == DefersUpTo(frames, Some(FindLoop(loops, name).value.body))
      modifies this
      ensures var j := Leave(isBreak, name); var goal := GoalOf(j, loops);
        Valid() && State() == EmitJump(j, goal, DefersUpTo(frames, LimitOf(goal)), old(State()))
      decreases FramesWeight(frames), 2
    {
      var loop := notes.siteLoop[site];
      AroundDefers(notes, frames, loops, Some(loop.body));
      BodyBreak(notes.siteDefers[site]);
      if loop.id in targets {
        Build(Br(if isBreak then targets[loop.id].breakBlock else targets[loop.id].continueBlock));
      }
    }

    method StmtWhile(loop: nat, ghost name: Option<string>, guard: Operand, body: Body, ghost frames: seq<Frame>,
                     ghost loops: seq<Loop>, ghost inDefer: bool)
      requires Valid() && Around(notes, frames, loops) && (name.Some? ==> FindLoop(loops, name).None?)
      requires AnnotatedBody(notes, body, frames, loops + [Loop(loop, name, body.id)])
      requires ConfinedBody(body, loops + [Loop(loop, name, body.id)], inDefer) && DistinctBody(body)
      modifies this
      ensures Valid() && State() == EmitWhile(loop, name, guard, body, frames, loops, old(State()))
      decreases FramesWeight(frames) + BodyWeight(body), 1
    {
      NamesDistinctPush(loops, Loop(loop, name, body.id));
      var condBlock, endBlock := OpenLoop(loop, guard);
      var open := LowerBody(body, frames, loops + [Loop(loop, name, body.id)], inDefer);
      if open {
        Build(Br(condBlock));
      }
      Position(endBlock);
    }

    /** The loop's blocks and targets, and its condition; the builder ends in the body's block. */
    method OpenLoop(loop: nat, guard: Operand) returns (condBlock: nat, endBlock: nat)
      requires Valid()
      modifies this
      ensures Valid() && State() == OpenWhile(loop, guard, old(State()))
      ensures condBlock == |old(blocks)| && endBlock == condBlock + 2
    {
      var bodyBlock;
      condBlock, bodyBlock, endBlock := AppendThreeBlocks();
      targets := targets[loop := LoopBlocks(condBlock, endBlock)];
      Build(Br(condBlock));
      Position(condBlock);
      BuildGuard(guard, bodyBlock, endBlock);
      Position(bodyBlock);
    }

    method BuildGuard(guard: Operand, thenBlock: nat, elseBlock: nat)
      requires Valid()
      modifies this
      ensures Valid() && State() == Append(EmitPieces(guard.pieces, old(State())), CondBr(guard.result, thenBlock, elseBlock))
    {
      Pieces(guard.pieces);
      Build(CondBr(guard.result, thenBlock, elseBlock));
    }

    /** Test, branch and the jump to the end; then on to the block of the alternative. */
    method LowerArm(c: Clause, thenBlock: nat, elseBlock: nat, endBlock: nat, ghost frames: seq<Frame>,
                    ghost loops: seq<Loop>, ghost inDefer: bool)
      requires Valid() && Around(notes, frames, loops) && thenBlock < |blocks| && elseBlock < |blocks|
      requires AnnotatedClause(notes, c, frames, loops) && ConfinedClause(c, loops, inDefer) && DistinctClause(c)
      modifies this
      ensures Valid() && State() == EmitArm(c, thenBlock, elseBlock, endBlock, frames, loops, old(State()))
      decreases FramesWeight(frames) + ClauseWeight(c), 0
    {
      BuildGuard(c.guard, thenBlock, elseBlock);
      Position(thenBlock);
      var open := LowerBody(c.body, frames, loops, inDefer);
      if open {
        Build(Br(endBlock));
      }
      Position(elseBlock);
    }

    method StmtIf(main: Clause, elseIfs: seq<Clause>, otherwise: Option<Body>, ghost frames: seq<Frame>,
                  ghost loops: seq<Loop>, ghost inDefer: bool)
      requires Valid() && Around(notes, frames, loops)
      requires AnnotatedClause(notes, main, frames, loops) && ConfinedClause(main, loops, inDefer) && DistinctClause(main)
      requires AnnotatedClauses(notes, elseIfs, frames, loops) && ConfinedClauses(elseIfs, loops, inDefer) && DistinctClauses(elseIfs)
      requires AnnotatedOtherwise(notes, otherwise, frames, loops) && ConfinedOtherwise(otherwise, loops, inDefer)
      requires DistinctOtherwise(otherwise)
      modifies this
      ensures Valid() && State() == EmitIf(main, elseIfs, otherwise, frames, loops, old(State()))
      decreases FramesWeight(frames) + ClauseWeight(main) + ClausesWeight(elseIfs) + OtherwiseWeight(otherwise), 1
    {
      var ifBlock, elseBlock, endBlock := AppendThreeBlocks();
      LowerArm(main, ifBlock, elseBlock, endBlock, frames, loops, inDefer);
      LowerElse(elseIfs, otherwise, endBlock, frames, loops, inDefer);
    }

    method LowerElseIf(c: Clause, endBlock: nat, ghost frames: seq<Frame>, ghost loops: seq<Loop>, ghost inDefer: bool)
      requires Valid() && Around(notes, frames, loops)
      requires AnnotatedClause(notes, c, frames, loops) && ConfinedClause(c, loops, inDefer) && DistinctClause(c)
      modifies this
      ensures Valid() && |blocks| >= |old(blocks)| + 2
      ensures State() ==
        EmitArm(c, |old(blocks)| + 1, |old(blocks)|, endBlock, frames, loops, AppendBlock(AppendBlock(old(State()))))
      decreases FramesWeight(frames) + ClauseWeight(c), 1
    {
      var nextElseBlock := AppendBasicBlock();
      var elseIfBody := AppendBasicBlock();
      LowerArm(c, elseIfBody, nextElseBlock, endBlock, frames, loops, inDefer);
    }

    /** The alternatives, each tested in the block that the one before it left for it. */
    method LowerElse(elseIfs: seq<Clause>, otherwise: Option<Body>, endBlock: nat, ghost frames: seq<Frame>,
                     ghost loops: seq<Loop>, ghost inDefer: bool)
      requires Valid() && Around(notes, frames, loops) && endBlock < |blocks|
      requires AnnotatedClauses(notes, elseIfs, frames, loops) && ConfinedClauses(elseIfs, loops, inDefer) && DistinctClauses(elseIfs)
      requires AnnotatedOtherwise(notes, otherwise, frames, loops) && ConfinedOtherwise(otherwise, loops, inDefer)
      requires DistinctOtherwise(otherwise)
      modifies this
      ensures Valid() && State() == EmitElse(elseIfs, otherwise, endBlock, frames, loops, old(State()))
      decreases FramesWeight(frames) + ClausesWeight(elseIfs) + OtherwiseWeight(otherwise), 2
    {
      ghost var all := EmitElse(elseIfs, otherwise, endBlock, frames, loops, State());
      var i := 0;
      while i < |elseIfs|
        invariant 0 <= i <= |elseIfs| && Valid() && endBlock < |blocks|
        invariant AnnotatedClauses(notes, elseIfs[i..], frames, loops)
        invariant ConfinedClauses(elseIfs[i..], loops, inDefer) && DistinctClauses(elseIfs[i..])
        invariant ClausesWeight(elseIfs[i..]) <= ClausesWeight(elseIfs)
        invariant all == EmitElse(elseIfs[i..], otherwise, endBlock, frames, loops, State())
      {
        assert elseIfs[i..][0] == elseIfs[i] && elseIfs[i..][1..] == elseIfs[i + 1..];
        ClausesStep(notes, elseIfs[i..], frames, loops, inDefer);
        LowerElseIf(elseIfs[i], endBlock, frames, loops, inDefer);
        i := i + 1;
      }
      LowerOtherwise(otherwise, endBlock, frames, loops, inDefer);
    }

    method LowerOtherwise(otherwise: Option<Body>, endBlock: nat, ghost frames: seq<Frame>, ghost loops: seq<Loop>,
                          ghost inDefer: bool)
      requires Valid() && Around(notes, frames, loops) && endBlock < |blocks|
      requires AnnotatedOtherwise(notes, otherwise, frames, loops) && ConfinedOtherwise(otherwise, loops, inDefer)
      requires DistinctOtherwise(otherwise)
      modifies this
      ensures Valid() && State() == EmitElse([], otherwise, endBlock, frames, loops, old(State()))
      decreases FramesWeight(frames) + OtherwiseWeight(otherwise), 1
    {
      var open := true;
      if otherwise.Some? {
        open := LowerBody(otherwise.value, frames, loops, inDefer);
      }
      if open {
        Build(Br(endBlock));
      }
      Position(endBlock);
    }
  }
}
