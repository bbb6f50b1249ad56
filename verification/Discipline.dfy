/** Well-formed blocks: after lowering, every block but the one the builder stands in ends in its one
    and only terminator, and `open` says exactly whether that last one still needs one. */
module Discipline {
  import opened Options
  import opened Syntax
  import opened Defers
  import opened Emission
  import opened Growth
  import opened Simulation

  predicate IsTerminator(i: Instr) {
    i.Br? || i.CondBr? || i.Ret?
  }

  predicate OpenBlock(b: Block) {
    forall k :: 0 <= k < |b| ==> !IsTerminator(b[k])
  }

  predicate ClosedBlock(b: Block) {
    b != [] && IsTerminator(b[|b| - 1]) && OpenBlock(b[..|b| - 1])
  }

  /** Of the blocks from `base` on, and block `p0`, all are closed but the builder's own, which is
      closed exactly when `e` is not open, and those still `waiting` for their code. */
  ghost predicate Tidy(base: nat, p0: nat, e: Emitted, waiting: set<nat>) {
    && e.g.Settled()
    && (if e.open then OpenBlock(e.g.blocks[e.g.pos]) else ClosedBlock(e.g.blocks[e.g.pos]))
    && (forall i :: 0 <= i < |e.g.blocks| && (i >= base || i == p0) && i != e.g.pos && i !in waiting ==>
          ClosedBlock(e.g.blocks[i]))
  }

  lemma TidyThen(base: nat, p0: nat, g: Gen, e: Emitted, waiting: set<nat>, ids: set<nat>)
    requires Tidy(base, p0, Emitted(g, true), waiting) && Tidy(|g.blocks|, g.pos, e, {}) && Grows(g, e.g, ids)
    requires base <= |g.blocks| && g.definitions < base && p0 != g.definitions
    ensures Tidy(base, p0, e, waiting)
  {
  }

  lemma CloseBlock(b: Block, i: Instr)
    requires OpenBlock(b) && IsTerminator(i)
    ensures ClosedBlock(b + [i])
  {
    assert (b + [i])[..|b|] == b;
  }

  lemma {:induction false} OpenPieces(ps: seq<Piece>, g: Gen)
    requires g.Settled() && OpenBlock(g.blocks[g.pos])
    ensures OpenBlock(EmitPieces(ps, g).blocks[g.pos])
  {
    if ps != [] {
      match ps[0]
      case Do(a) =>
        AppendGrows(g, Act(a));
        OpenPieces(ps[1..], Append(g, Act(a)));
      case Slot(t) =>
        AppendSlotGrows(g, t);
        OpenPieces(ps[1..], AppendSlot(g, t));
    }
  }

  // ---------- whole bodies ----------

  lemma {:induction false} TidyBodies(ds: seq<Body>, g: Gen)
    requires g.Settled() && OpenBlock(g.blocks[g.pos]) && forall d :: d in ds ==> Replayable(d)
    ensures Tidy(|g.blocks|, g.pos, Emitted(EmitBodies(ds, g), true), {})
    decreases BodiesWeight(ds), 1
  {
    if ds != [] {
      var e := EmitBody(ds[0], [], [], g);
      assert ds[0] in ds;
      ReplayReady(ds[0], g);
      assert [Frame(ds[0].id, [])] + [] == [Frame(ds[0].id, [])];
      TidyBody(ds[0], [], [], true, g);
      EmitBodyGrows(ds[0], [], [], g);
      ReplayOpen(ds[0].stmts, [Frame(ds[0].id, [])], [], g);
      TidyBodies(ds[1..], e.g);
      EmitBodiesGrows(ds[1..], e.g);
      TidyThen(|g.blocks|, g.pos, e.g, Emitted(EmitBodies(ds, g), true), {}, BodiesIds(ds[1..]));
    }
  }

  /** Code that cannot jump out is open at its end. */
  lemma {:induction false} ReplayOpen(ss: seq<Stmt>, frames: seq<Frame>, loops: seq<Loop>, g: Gen)
    requires frames != [] && loops == [] && ConfinedStmts(ss, [], true)
    ensures EmitStmts(ss, frames, loops, g).open && FallsThrough(ss)
    decreases |ss|
  {
    if ss != [] {
      EmitStmtsUnfold(ss, frames, loops, g);
      ReplayOpen(ss[1..], StepFrames(ss[0], frames), loops, StepStmt(ss[0], frames, loops, g));
      assert forall i :: 0 < i < |ss| ==> ss[i] == ss[1..][i - 1];
    }
  }

  lemma {:induction false} TidyBody(b: Body, frames: seq<Frame>, loops: seq<Loop>, inDefer: bool, g: Gen)
    requires Ready(StmtsIds(b.stmts), [Frame(b.id, [])] + frames, loops, g) && OpenBlock(g.blocks[g.pos])
    requires ConfinedBody(b, loops, inDefer) && DistinctBody(b)
    ensures Tidy(|g.blocks|, g.pos, EmitBody(b, frames, loops, g), {})
    decreases FramesWeight(frames) + BodyWeight(b), 0
  {
    var inner := [Frame(b.id, [])] + frames;
    assert inner[1..] == frames;
    var e := EmitStmts(b.stmts, inner, loops, g);
    TidyStmts(b.stmts, inner, loops, inDefer, g);
    EmitStmtsGrows(b.stmts, inner, loops, g);
    if e.open {
      RegisteredReplayable(b.stmts, loops, inDefer);
      TidyBodies(Registered(b.stmts), e.g);
      EmitBodiesGrows(Registered(b.stmts), e.g);
      TidyThen(|g.blocks|, g.pos, e.g, Emitted(EmitBodies(Registered(b.stmts), e.g), true), {}, BodiesIds(Registered(b.stmts)));
    }
  }

  lemma {:induction false} TidyStmts(ss: seq<Stmt>, frames: seq<Frame>, loops: seq<Loop>, inDefer: bool, g: Gen)
    requires frames != [] && Ready(StmtsIds(ss), frames, loops, g) && OpenBlock(g.blocks[g.pos])
    requires ConfinedStmts(ss, loops, inDefer) && DistinctStmts(ss)
    ensures Tidy(|g.blocks|, g.pos, EmitStmts(ss, frames, loops, g), {})
    decreases FramesWeight(frames) + StmtsWeight(ss), 3
  {
    if ss != [] {
      var s := ss[0];
      var g1 := StepStmt(s, frames, loops, g);
      var frames1 := StepFrames(s, frames);
      EmitStmtsUnfold(ss, frames, loops, g);
      StmtsParts(ss, frames, loops, inDefer, g);
      TidyStmt(s, frames, loops, inDefer, g);
      StepStmtGrows(s, frames, loops, g);
      if !s.Return? && !s.Control? {
        TidyStmts(ss[1..], frames1, loops, inDefer, g1);
        EmitStmtsGrows(ss[1..], frames1, loops, g1);
        TidyThen(|g.blocks|, g.pos, g1, EmitStmts(ss[1..], frames1, loops, g1), {}, StmtsIds(ss[1..]) + HeldIds(frames1));
      }
    }
  }

  lemma StmtsParts(ss: seq<Stmt>, frames: seq<Frame>, loops: seq<Loop>, inDefer: bool, g: Gen)
    requires frames != [] && ss != [] && Ready(StmtsIds(ss), frames, loops, g)
    requires ConfinedStmts(ss, loops, inDefer) && DistinctStmts(ss)
    ensures Ready(StmtIds(ss[0]), frames, loops, g)
    ensures ConfinedStmt(ss[0], loops, inDefer) && DistinctStmt(ss[0])
    ensures Ready(StmtsIds(ss[1..]), StepFrames(ss[0], frames), loops, StepStmt(ss[0], frames, loops, g))
    ensures ConfinedStmts(ss[1..], loops, inDefer) && DistinctStmts(ss[1..])
    ensures StmtsWeight(ss) == StmtWeight(ss[0]) + StmtsWeight(ss[1..])
  {
    StepStmtGrows(ss[0], frames, loops, g);
    assert [ss[0]] + ss[1..] == ss;
    ReadyAfter(ss[0], ss[1..], frames, loops, inDefer, g, StepStmt(ss[0], frames, loops, g));
  }

  lemma {:induction false} TidyStmt(s: Stmt, frames: seq<Frame>, loops: seq<Loop>, inDefer: bool, g: Gen)
    requires frames != [] && Ready(StmtIds(s), frames, loops, g) && OpenBlock(g.blocks[g.pos])
    requires ConfinedStmt(s, loops, inDefer) && DistinctStmt(s)
    ensures Tidy(|g.blocks|, g.pos, Emitted(StepStmt(s, frames, loops, g), !s.Return? && !s.Control?), {})
    decreases FramesWeight(frames) + StmtWeight(s), 2
  {
    match s
    case Eval(ps) =>
      EmitPiecesGrows(ps, g);
      OpenPieces(ps, g);
    case Return(_, v) => TidyJump(ReturnWith(v), Exit, frames, loops, g);
    case Control(_, isBreak, name) =>
      FindLoopSound(loops, name);
      TidyJump(Leave(isBreak, name), GoalOf(Leave(isBreak, name), loops), frames, loops, g);
    case While(id, name, guard, body) => TidyWhile(id, name, guard, body, frames, loops, inDefer, g);
    case If(main, elseIfs, otherwise) => TidyIf(main, elseIfs, otherwise, frames, loops, inDefer, g);
    case Defer(_) =>
  }

  lemma {:induction false} TidyJump(j: Jump, goal: Goal, frames: seq<Frame>, loops: seq<Loop>, g: Gen)
    requires Ready({}, frames, loops, g) && OpenBlock(g.blocks[g.pos])
    requires j.Leave? ==> goal.ToLoop? && goal.loop in loops
    ensures Tidy(|g.blocks|, g.pos, Emitted(EmitJump(j, goal, DefersUpTo(frames, LimitOf(goal)), g), false), {})
    decreases FramesWeight(frames), 2
  {
    var ds := DefersUpTo(frames, LimitOf(goal));
    var g1 := EmitBodies(ds, g);
    forall d | d in ds
      ensures Replayable(d)
    {
      DefersUpToMembers(frames, LimitOf(goal), d);
    }
    TidyBodies(ds, g);
    EmitBodiesGrows(ds, g);
    DefersUpToIds(frames, LimitOf(goal));
    TargetsKept(BodiesIds(ds), loops, g, g1);
    TidyTerminator(j, goal, g1);
    EmitTerminatorGrows(j, goal, g1);
    TidyThen(|g.blocks|, g.pos, g1, Emitted(EmitTerminator(j, goal, g1), false), {}, {});
  }

  lemma TidyTerminator(j: Jump, goal: Goal, g: Gen)
    requires g.Settled() && OpenBlock(g.blocks[g.pos])
    requires j.Leave? ==> goal.ToLoop? && goal.loop.id in g.targets
    ensures Tidy(|g.blocks|, g.pos, Emitted(EmitTerminator(j, goal, g), false), {})
  {
    match j
    case ReturnWith(None) => CloseBlock(g.blocks[g.pos], Ret(None));
    case ReturnWith(Some(v)) =>
      EmitPiecesGrows(v.pieces, g);
      OpenPieces(v.pieces, g);
      CloseBlock(EmitPieces(v.pieces, g).blocks[g.pos], Ret(Some(v.result)));
    case Leave(isBreak, _) =>
      var t := g.targets[goal.loop.id];
      CloseBlock(g.blocks[g.pos], Br(if isBreak then t.breakBlock else t.continueBlock));
  }

  /** Closing the builder's block and moving to a block that was waiting, still empty. */
  lemma TidyMove(base: nat, p0: nat, e: Emitted, waiting: set<nat>, b: nat)
    requires Tidy(base, p0, e, waiting) && !e.open && b in waiting && b < |e.g.blocks| && b != e.g.definitions
    requires e.g.blocks[b] == []
    ensures Tidy(base, p0, Emitted(MoveTo(e.g, b), true), waiting - {b})
  {
  }

  lemma TidyClose(base: nat, p0: nat, e: Emitted, target: nat, waiting: set<nat>)
    requires Tidy(base, p0, e, waiting)
    ensures Tidy(base, p0, Emitted(CloseWith(e, target), false), waiting)
  {
    if e.open {
      CloseBlock(e.g.blocks[e.g.pos], Br(target));
    }
  }

  lemma TidyAppend(base: nat, p0: nat, g: Gen, i: Instr, waiting: set<nat>)
    requires Tidy(base, p0, Emitted(g, true), waiting) && IsTerminator(i)
    ensures Tidy(base, p0, Emitted(Append(g, i), false), waiting)
  {
    CloseBlock(g.blocks[g.pos], i);
  }

  lemma TidyPieces(base: nat, p0: nat, g: Gen, ps: seq<Piece>, waiting: set<nat>)
    requires Tidy(base, p0, Emitted(g, true), waiting) && base <= |g.blocks| && g.definitions < base && p0 != g.definitions
    ensures Tidy(base, p0, Emitted(EmitPieces(ps, g), true), waiting)
  {
    EmitPiecesGrows(ps, g);
    OpenPieces(ps, g);
  }

  lemma TidyOpenWhile(id: nat, guard: Operand, g: Gen)
    requires g.Settled() && OpenBlock(g.blocks[g.pos])
    ensures Tidy(|g.blocks|, g.pos, Emitted(OpenWhile(id, guard, g), true), {|g.blocks| + 2})
  {
    var n := |g.blocks|;
    var g2 := AppendThree(g).(targets := g.targets[id := LoopBlocks(n, n + 2)]);
    var g3 := Append(g2, Br(n));
    WhileHeadGrows(g, g2, MoveTo(g3, n), n, id);
    assert Tidy(n, g.pos, Emitted(g2, true), {n, n + 1, n + 2});
    TidyAppend(n, g.pos, g2, Br(n), {n, n + 1, n + 2});
    TidyMove(n, g.pos, Emitted(g3, false), {n, n + 1, n + 2}, n);
    assert {n, n + 1, n + 2} - {n} == {n + 1, n + 2};
    var g4 := EmitPieces(guard.pieces, MoveTo(g3, n));
    TidyPieces(n, g.pos, MoveTo(g3, n), guard.pieces, {n + 1, n + 2});
    EmitPiecesGrows(guard.pieces, MoveTo(g3, n));
    TidyAppend(n, g.pos, g4, CondBr(guard.result, n + 1, n + 2), {n + 1, n + 2});
    TidyMove(n, g.pos, Emitted(Append(g4, CondBr(guard.result, n + 1, n + 2)), false), {n + 1, n + 2}, n + 1);
    assert {n + 1, n + 2} - {n + 1} == {n + 2};
  }

  lemma {:induction false} TidyWhile(id: nat, name: Option<string>, guard: Operand, body: Body, frames: seq<Frame>,
                                     loops: seq<Loop>, inDefer: bool, g: Gen)
    requires Ready({id} + BodyIds(body), frames, loops, g) && OpenBlock(g.blocks[g.pos])
    requires name.Some? ==> FindLoop(loops, name).None?
    requires ConfinedBody(body, loops + [Loop(id, name, body.id)], inDefer)
    requires id !in BodyIds(body) && DistinctBody(body)
    ensures Tidy(|g.blocks|, g.pos, Emitted(EmitWhile(id, name, guard, body, frames, loops, g), true), {})
    decreases FramesWeight(frames) + BodyWeight(body), 3
  {
    TidyWhileParts(id, name, guard, body, frames, loops, inDefer, g);
    WhileIs(id, name, guard, body, frames, loops, g);
  }

  lemma LoopOpened(id: nat, guard: Operand, g: Gen)
    requires g.Settled() && OpenBlock(g.blocks[g.pos])
    ensures var n := |g.blocks|; var r := OpenWhile(id, guard, g);
      && Tidy(n, g.pos, Emitted(r, true), {n + 2})
      && r.definitions == g.definitions < n && g.pos != g.definitions && r.pos != n + 2 && r.blocks[n + 2] == []
  {
    OpenWhileGrows(id, guard, g);
    TidyOpenWhile(id, guard, g);
  }

  lemma {:induction false} TidyWhileParts(id: nat, name: Option<string>, guard: Operand, body: Body, frames: seq<Frame>,
                                          loops: seq<Loop>, inDefer: bool, g: Gen)
    requires Ready({id} + BodyIds(body), frames, loops, g) && OpenBlock(g.blocks[g.pos])
    requires name.Some? ==> FindLoop(loops, name).None?
    requires ConfinedBody(body, loops + [Loop(id, name, body.id)], inDefer)
    requires id !in BodyIds(body) && DistinctBody(body)
    ensures var n := |g.blocks|; var e := EmitBody(body, frames, loops + [Loop(id, name, body.id)], OpenWhile(id, guard, g));
      n + 2 < |e.g.blocks| && Tidy(n, g.pos, Emitted(MoveTo(CloseWith(e, n), n + 2), true), {})
    decreases FramesWeight(frames) + BodyWeight(body), 2
  {
    TidyLoopBody(id, name, guard, body, frames, loops, inDefer, g);
    ThroughLoop(id, guard, g, EmitBody(body, frames, loops + [Loop(id, name, body.id)], OpenWhile(id, guard, g)),
                BodyIds(body) + HeldIds(frames));
  }

  /** From the block before a loop to the block after it. */
  lemma ThroughLoop(id: nat, guard: Operand, g: Gen, e: Emitted, ids: set<nat>)
    requires g.Settled() && OpenBlock(g.blocks[g.pos])
    requires var g1 := OpenWhile(id, guard, g); Tidy(|g1.blocks|, g1.pos, e, {}) && Grows(g1, e.g, ids)
    ensures var n := |g.blocks|; n + 2 < |e.g.blocks| && Tidy(n, g.pos, Emitted(MoveTo(CloseWith(e, n), n + 2), true), {})
  {
    LoopOpened(id, guard, g);
    LeaveLoop(|g.blocks|, g.pos, OpenWhile(id, guard, g), e, ids);
  }

  lemma {:induction false} TidyLoopBody(id: nat, name: Option<string>, guard: Operand, body: Body, frames: seq<Frame>,
                                        loops: seq<Loop>, inDefer: bool, g: Gen)
    requires Ready({id} + BodyIds(body), frames, loops, g) && (name.Some? ==> FindLoop(loops, name).None?)
    requires ConfinedBody(body, loops + [Loop(id, name, body.id)], inDefer)
    requires id !in BodyIds(body) && DistinctBody(body)
    ensures var g1 := OpenWhile(id, guard, g); var e := EmitBody(body, frames, loops + [Loop(id, name, body.id)], g1);
      Tidy(|g1.blocks|, g1.pos, e, {}) && Grows(g1, e.g, BodyIds(body) + HeldIds(frames))
    decreases FramesWeight(frames) + BodyWeight(body), 1
  {
    var l := Loop(id, name, body.id);
    var g1 := OpenWhile(id, guard, g);
    OpenWhileGrows(id, guard, g);
    LoopBodyReady(id, name, guard, body, frames, loops, g);
    TidyBody(body, frames, loops + [l], inDefer, g1);
    EmitBodyGrows(body, frames, loops + [l], g1);
  }

  /** From the open loop `g`, through its body, to the block after it. */
  lemma LeaveLoop(n: nat, p0: nat, g: Gen, e: Emitted, ids: set<nat>)
    requires Tidy(n, p0, Emitted(g, true), {n + 2}) && g.definitions < n <= n + 2 < |g.blocks| && p0 != g.definitions
    requires g.blocks[n + 2] == [] && g.pos != n + 2
    requires Tidy(|g.blocks|, g.pos, e, {}) && Grows(g, e.g, ids)
    ensures n + 2 < |CloseWith(e, n).blocks| && Tidy(n, p0, Emitted(MoveTo(CloseWith(e, n), n + 2), true), {})
  {
    TidyThen(n, p0, g, e, {n + 2}, ids);
    TidyClose(n, p0, e, n, {n + 2});
    CloseWithGrows(e, n);
    TidyMove(n, p0, Emitted(CloseWith(e, n), false), {n + 2}, n + 2);
    assert {n + 2} - {n + 2} == {};
  }

  lemma {:induction false} TidyArm(base: nat, p0: nat, c: Clause, thenBlock: nat, elseBlock: nat, endBlock: nat,
                                   frames: seq<Frame>, loops: seq<Loop>, inDefer: bool, g: Gen)
    requires Ready(ClauseIds(c), frames, loops, g) && ArmBlocks(thenBlock, elseBlock, endBlock, g)
    requires ConfinedClause(c, loops, inDefer) && DistinctClause(c)
    requires base <= |g.blocks| && g.definitions < base && p0 != g.definitions
    requires Tidy(base, p0, Emitted(g, true), {thenBlock, elseBlock, endBlock})
    ensures Tidy(base, p0, Emitted(EmitArm(c, thenBlock, elseBlock, endBlock, frames, loops, g), true), {endBlock})
    decreases FramesWeight(frames) + ClauseWeight(c), 0
  {
    ArmOpened(base, p0, c, thenBlock, elseBlock, endBlock, frames, loops, g);
    var g1 := ArmStart(c, thenBlock, elseBlock, g);
    var e := EmitBody(c.body, frames, loops, g1);
    BranchReady(c.body, frames, loops, g1);
    TidyBody(c.body, frames, loops, inDefer, g1);
    EmitBodyGrows(c.body, frames, loops, g1);
    ArmLeft(base, p0, g1, e, BodyIds(c.body) + HeldIds(frames), elseBlock, endBlock);
  }

  /** From the test of an arm to the start of its branch. */
  lemma ArmOpened(base: nat, p0: nat, c: Clause, thenBlock: nat, elseBlock: nat, endBlock: nat, frames: seq<Frame>,
                  loops: seq<Loop>, g: Gen)
    requires Ready(ClauseIds(c), frames, loops, g) && ArmBlocks(thenBlock, elseBlock, endBlock, g)
    requires base <= |g.blocks| && g.definitions < base && p0 != g.definitions
    requires Tidy(base, p0, Emitted(g, true), {thenBlock, elseBlock, endBlock})
    ensures var r := ArmStart(c, thenBlock, elseBlock, g);
      && Tidy(base, p0, Emitted(r, true), {elseBlock, endBlock}) && Ready(BodyIds(c.body), frames, loops, r)
      && r.definitions == g.definitions && r.pos == thenBlock && |r.blocks| >= |g.blocks| && r.blocks[elseBlock] == []
  {
    var all := {thenBlock, elseBlock, endBlock};
    var g1 := EmitPieces(c.guard.pieces, g);
    EmitPiecesGrows(c.guard.pieces, g);
    TidyPieces(base, p0, g, c.guard.pieces, all);
    var g2 := Append(g1, CondBr(c.guard.result, thenBlock, elseBlock));
    TidyAppend(base, p0, g1, CondBr(c.guard.result, thenBlock, elseBlock), all);
    TidyMove(base, p0, Emitted(g2, false), all, thenBlock);
    assert all - {thenBlock} == {elseBlock, endBlock};
    TargetsKept({}, loops, g, g1);
    ReadySubset(ClauseIds(c), BodyIds(c.body), frames, loops, g, MoveTo(g2, thenBlock));
  }

  /** From the start of a branch, through its body, to the block of the alternative. */
  lemma ArmLeft(base: nat, p0: nat, g: Gen, e: Emitted, ids: set<nat>, elseBlock: nat, endBlock: nat)
    requires Tidy(base, p0, Emitted(g, true), {elseBlock, endBlock})
    requires base <= |g.blocks| && g.definitions < base && p0 != g.definitions && elseBlock < |g.blocks|
    requires g.blocks[elseBlock] == [] && elseBlock != endBlock && elseBlock != g.pos && elseBlock != g.definitions
    requires Tidy(|g.blocks|, g.pos, e, {}) && Grows(g, e.g, ids)
    ensures elseBlock < |CloseWith(e, endBlock).blocks|
    ensures Tidy(base, p0, Emitted(MoveTo(CloseWith(e, endBlock), elseBlock), true), {endBlock})
  {
    var some := {elseBlock, endBlock};
    TidyThen(base, p0, g, e, some, ids);
    TidyClose(base, p0, e, endBlock, some);
    CloseWithGrows(e, endBlock);
    TidyMove(base, p0, Emitted(CloseWith(e, endBlock), false), some, elseBlock);
    assert some - {elseBlock} == {endBlock};
  }

  /** An arm and all alternatives after it. */
  lemma {:induction false} TidyChain(base: nat, p0: nat, c: Clause, thenBlock: nat, elseBlock: nat, endBlock: nat,
                                     cs: seq<Clause>, otherwise: Option<Body>, frames: seq<Frame>, loops: seq<Loop>,
                                     inDefer: bool, g: Gen)
    requires Ready(ClauseIds(c) + ClausesIds(cs) + OtherwiseIds(otherwise), frames, loops, g)
    requires ArmBlocks(thenBlock, elseBlock, endBlock, g)
    requires ConfinedClause(c, loops, inDefer) && DistinctClause(c)
    requires ConfinedClauses(cs, loops, inDefer) && DistinctClauses(cs)
    requires ConfinedOtherwise(otherwise, loops, inDefer) && DistinctOtherwise(otherwise)
    requires base <= |g.blocks| && g.definitions < base && p0 != g.definitions
    requires Tidy(base, p0, Emitted(g, true), {thenBlock, elseBlock, endBlock})
    ensures Tidy(base, p0, Emitted(EmitElse(cs, otherwise, endBlock, frames, loops,
                                            EmitArm(c, thenBlock, elseBlock, endBlock, frames, loops, g)), true), {})
    decreases FramesWeight(frames) + ClauseWeight(c) + ClausesWeight(cs) + OtherwiseWeight(otherwise), 2
  {
    var ids := ClauseIds(c) + ClausesIds(cs) + OtherwiseIds(otherwise);
    ReadySubset(ids, ClauseIds(c), frames, loops, g, g);
    TidyArm(base, p0, c, thenBlock, elseBlock, endBlock, frames, loops, inDefer, g);
    var g1 := EmitArm(c, thenBlock, elseBlock, endBlock, frames, loops, g);
    EmitArmGrows(c, thenBlock, elseBlock, endBlock, frames, loops, g);
    ArmTargets(ClauseIds(c) + HeldIds(frames), thenBlock, frames, loops, g, g1);
    ReadySubset(ids, ClausesIds(cs) + OtherwiseIds(otherwise), frames, loops, g, g1);
    TidyElse(base, p0, cs, otherwise, endBlock, frames, loops, inDefer, g1);
  }

  lemma {:induction false} TidyIf(main: Clause, elseIfs: seq<Clause>, otherwise: Option<Body>, frames: seq<Frame>,
                                  loops: seq<Loop>, inDefer: bool, g: Gen)
    requires Ready(ClauseIds(main) + ClausesIds(elseIfs) + OtherwiseIds(otherwise), frames, loops, g)
    requires OpenBlock(g.blocks[g.pos])
    requires ConfinedClause(main, loops, inDefer) && DistinctClause(main)
    requires ConfinedClauses(elseIfs, loops, inDefer) && DistinctClauses(elseIfs)
    requires ConfinedOtherwise(otherwise, loops, inDefer) && DistinctOtherwise(otherwise)
    ensures Tidy(|g.blocks|, g.pos, Emitted(EmitIf(main, elseIfs, otherwise, frames, loops, g), true), {})
    decreases FramesWeight(frames) + ClauseWeight(main) + ClausesWeight(elseIfs) + OtherwiseWeight(otherwise), 3
  {
    var n := |g.blocks|;
    ReadyThree(ClauseIds(main) + ClausesIds(elseIfs) + OtherwiseIds(otherwise), frames, loops, g);
    TidyThree(g);
    TidyChain(n, g.pos, main, n, n + 1, n + 2, elseIfs, otherwise, frames, loops, inDefer, AppendThree(g));
  }

  lemma TidyThree(g: Gen)
    requires g.Settled() && OpenBlock(g.blocks[g.pos])
    ensures var n := |g.blocks|;
      && Tidy(n, g.pos, Emitted(AppendThree(g), true), {n, n + 1, n + 2}) && ArmBlocks(n, n + 1, n + 2, AppendThree(g))
  {
  }

  lemma TidyTwo(base: nat, p0: nat, g: Gen, endBlock: nat)
    requires Tidy(base, p0, Emitted(g, true), {endBlock})
    requires endBlock < |g.blocks| && endBlock != g.definitions && endBlock != g.pos && g.blocks[endBlock] == []
    ensures var n := |g.blocks|; var g0 := AppendBlock(AppendBlock(g));
      && Tidy(base, p0, Emitted(g0, true), {n + 1, n, endBlock}) && ArmBlocks(n + 1, n, endBlock, g0)
  {
  }

  lemma {:induction false} TidyElse(base: nat, p0: nat, cs: seq<Clause>, otherwise: Option<Body>, endBlock: nat,
                                    frames: seq<Frame>, loops: seq<Loop>, inDefer: bool, g: Gen)
    requires Ready(ClausesIds(cs) + OtherwiseIds(otherwise), frames, loops, g)
    requires ConfinedClauses(cs, loops, inDefer) && DistinctClauses(cs)
    requires ConfinedOtherwise(otherwise, loops, inDefer) && DistinctOtherwise(otherwise)
    requires base <= |g.blocks| && g.definitions < base && p0 != g.definitions
    requires endBlock < |g.blocks| && endBlock != g.definitions && endBlock != g.pos && g.blocks[endBlock] == []
    requires Tidy(base, p0, Emitted(g, true), {endBlock})
    ensures Tidy(base, p0, Emitted(EmitElse(cs, otherwise, endBlock, frames, loops, g), true), {})
    decreases FramesWeight(frames) + ClausesWeight(cs) + OtherwiseWeight(otherwise), 4
  {
    if cs != [] {
      var n := |g.blocks|;
      var g0 := AppendBlock(AppendBlock(g));
      ReadySubset(ClausesIds(cs) + OtherwiseIds(otherwise), ClauseIds(cs[0]) + ClausesIds(cs[1..]) + OtherwiseIds(otherwise),
                  frames, loops, g, g0);
      TidyTwo(base, p0, g, endBlock);
      TidyChain(base, p0, cs[0], n + 1, n, endBlock, cs[1..], otherwise, frames, loops, inDefer, g0);
    } else {
      match otherwise
      case None =>
        TidyNone(base, p0, endBlock, g);
      case Some(b) =>
        TidyLast(base, p0, b, endBlock, frames, loops, inDefer, g);
    }
  }

  lemma TidyNone(base: nat, p0: nat, endBlock: nat, g: Gen)
    requires Tidy(base, p0, Emitted(g, true), {endBlock})
    requires endBlock < |g.blocks| && endBlock != g.definitions && endBlock != g.pos && g.blocks[endBlock] == []
    ensures Tidy(base, p0, Emitted(MoveTo(Append(g, Br(endBlock)), endBlock), true), {})
  {
    TidyAppend(base, p0, g, Br(endBlock), {endBlock});
    assert {endBlock} - {endBlock} == {};
    TidyMove(base, p0, Emitted(Append(g, Br(endBlock)), false), {endBlock}, endBlock);
  }

  lemma {:induction false} TidyLast(base: nat, p0: nat, b: Body, endBlock: nat, frames: seq<Frame>, loops: seq<Loop>,
                                    inDefer: bool, g: Gen)
    requires Ready(BodyIds(b), frames, loops, g) && ConfinedBody(b, loops, inDefer) && DistinctBody(b)
    requires base <= |g.blocks| && g.definitions < base && p0 != g.definitions
    requires endBlock < |g.blocks| && endBlock != g.definitions && endBlock != g.pos && g.blocks[endBlock] == []
    requires Tidy(base, p0, Emitted(g, true), {endBlock})
    ensures Tidy(base, p0, Emitted(MoveTo(CloseWith(EmitBody(b, frames, loops, g), endBlock), endBlock), true), {})
    decreases FramesWeight(frames) + BodyWeight(b), 1
  {
    assert {endBlock} - {endBlock} == {};
    BranchReady(b, frames, loops, g);
    var e := EmitBody(b, frames, loops, g);
    TidyBody(b, frames, loops, inDefer, g);
    EmitBodyGrows(b, frames, loops, g);
    TidyThen(base, p0, g, e, {endBlock}, BodyIds(b) + HeldIds(frames));
    TidyClose(base, p0, e, endBlock, {endBlock});
    CloseWithGrows(e, endBlock);
    TidyMove(base, p0, Emitted(CloseWith(e, endBlock), false), {endBlock}, endBlock);
  }
}
