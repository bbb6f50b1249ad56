/** Lowering only ever adds: what it may touch, and what it leaves alone. */
module Growth {
  import opened Options
  import opened Syntax
  import opened Defers
  import opened Emission

  /** From `g0` to `g1`, blocks only got longer, and of the old ones only the builder's block and the
      definitions block did; the latter received stack slots only. Loops other than `ids` kept their
      jump targets. */
  ghost predicate Grows(g0: Gen, g1: Gen, ids: set<nat>) {
    && |g0.blocks| <= |g1.blocks|
    && g1.definitions == g0.definitions
    && (g1.pos == g0.pos || g1.pos >= |g0.blocks|)
    && (forall i :: 0 <= i < |g0.blocks| ==> g0.blocks[i] <= g1.blocks[i])
    && (forall i :: 0 <= i < |g0.blocks| && i != g0.pos && i != g0.definitions ==> g1.blocks[i] == g0.blocks[i])
    && OnlySlots(g0.blocks[g0.definitions], g1.blocks[g0.definitions])
    && (forall id :: id in g0.targets && id !in ids ==> id in g1.targets && g1.targets[id] == g0.targets[id])
  }

  ghost predicate OnlySlots(a: Block, b: Block) {
    a <= b && forall k :: |a| <= k < |b| ==> b[k].Alloca?
  }

  lemma GrowsTrans(g0: Gen, g1: Gen, g2: Gen, ids: set<nat>)
    requires Grows(g0, g1, ids) && Grows(g1, g2, ids) && g0.Settled() && g1.Settled()
    ensures Grows(g0, g2, ids)
  {
    forall i | 0 <= i < |g0.blocks|
      ensures g0.blocks[i] <= g2.blocks[i]
      ensures i != g0.pos && i != g0.definitions ==> g2.blocks[i] == g0.blocks[i]
    {
      assert g0.blocks[i] <= g1.blocks[i] <= g2.blocks[i];
    }
  }

  lemma GrowsMore(g0: Gen, g1: Gen, ids: set<nat>, more: set<nat>)
    requires Grows(g0, g1, ids) && ids <= more
    ensures Grows(g0, g1, more)
  {
  }

  lemma AppendGrows(g: Gen, i: Instr)
    requires g.Settled()
    ensures Append(g, i).Settled() && Grows(g, Append(g, i), {})
  {
  }

  lemma AppendSlotGrows(g: Gen, t: nat)
    requires g.Settled()
    ensures AppendSlot(g, t).Settled() && Grows(g, AppendSlot(g, t), {})
    ensures AppendSlot(g, t).pos == g.pos && AppendSlot(g, t).blocks[g.pos] == g.blocks[g.pos]
  {
  }

  /** Stack slots requested in the middle of an expression never move the builder to another block. */
  lemma {:induction false} EmitPiecesGrows(ps: seq<Piece>, g: Gen)
    requires g.Settled()
    ensures EmitPieces(ps, g).Settled() && Grows(g, EmitPieces(ps, g), {}) && EmitPieces(ps, g).pos == g.pos
  {
    if ps != [] {
      var g1 := match ps[0] case Do(a) => Append(g, Act(a)) case Slot(t) => AppendSlot(g, t);
      match ps[0] {
        case Do(a) => AppendGrows(g, Act(a));
        case Slot(t) => AppendSlotGrows(g, t);
      }
      EmitPiecesGrows(ps[1..], g1);
      GrowsTrans(g, g1, EmitPieces(ps, g), {});
    }
  }

  lemma EmitTerminatorGrows(j: Jump, goal: Goal, g: Gen)
    requires g.Settled()
    ensures EmitTerminator(j, goal, g).Settled() && Grows(g, EmitTerminator(j, goal, g), {})
  {
    match j
    case ReturnWith(None) =>
    case ReturnWith(Some(v)) =>
      EmitPiecesGrows(v.pieces, g);
      AppendGrows(EmitPieces(v.pieces, g), Ret(Some(v.result)));
      GrowsTrans(g, EmitPieces(v.pieces, g), EmitTerminator(j, goal, g), {});
    case Leave(_, _) =>
  }

  /** The node numbers whose loops a jump out of `frames` may lower again are those of held defers. */
  lemma DefersUpToIds(frames: seq<Frame>, to: Option<nat>)
    ensures BodiesIds(DefersUpTo(frames, to)) <= HeldIds(frames)
  {
    if frames != [] {
      DefersUpToIds(frames[1..], to);
      ReversedIds(frames[0].defers);
      BodiesIdsConcat(Reversed(frames[0].defers), DefersUpTo(frames[1..], to));
    }
  }

  lemma {:induction false} ReversedIds(ds: seq<Body>)
    ensures BodiesIds(Reversed(ds)) == BodiesIds(ds)
  {
    if ds != [] {
      ReversedIds(ds[1..]);
      BodiesIdsConcat(Reversed(ds[1..]), [ds[0]]);
      assert [ds[0]][1..] == [];
    }
  }

  lemma RegisteredIds(ss: seq<Stmt>)
    ensures BodiesIds(Registered(ss)) <= StmtsIds(ss)
  {
    if ss != [] {
      RegisteredIds(ss[1..]);
      if ss[0].Defer? {
        assert [ss[0].body][1..] == [];
        BodiesIdsConcat([ss[0].body], Registered(ss[1..]));
      }
    }
  }

  // ---------- whole bodies ----------

  lemma {:induction false} EmitBodiesGrows(ds: seq<Body>, g: Gen)
    requires g.Settled()
    ensures EmitBodies(ds, g).Settled() && Grows(g, EmitBodies(ds, g), BodiesIds(ds))
    decreases BodiesWeight(ds), 1
  {
    if ds != [] {
      var e := EmitBody(ds[0], [], [], g);
      EmitBodyGrows(ds[0], [], [], g);
      GrowsMore(g, e.g, BodyIds(ds[0]) + HeldIds([]), BodiesIds(ds));
      EmitBodiesGrows(ds[1..], e.g);
      GrowsMore(e.g, EmitBodies(ds, g), BodiesIds(ds[1..]), BodiesIds(ds));
      GrowsTrans(g, e.g, EmitBodies(ds, g), BodiesIds(ds));
    }
  }

  lemma {:induction false} EmitJumpGrows(j: Jump, goal: Goal, ds: seq<Body>, g: Gen)
    requires g.Settled()
    ensures EmitJump(j, goal, ds, g).Settled() && Grows(g, EmitJump(j, goal, ds, g), BodiesIds(ds))
    decreases BodiesWeight(ds), 2
  {
    var g1 := EmitBodies(ds, g);
    EmitBodiesGrows(ds, g);
    EmitTerminatorGrows(j, goal, g1);
    GrowsMore(g1, EmitJump(j, goal, ds, g), {}, BodiesIds(ds));
    GrowsTrans(g, g1, EmitJump(j, goal, ds, g), BodiesIds(ds));
  }

  lemma {:induction false} EmitBodyGrows(b: Body, frames: seq<Frame>, loops: seq<Loop>, g: Gen)
    requires g.Settled()
    ensures EmitBody(b, frames, loops, g).g.Settled()
    ensures Grows(g, EmitBody(b, frames, loops, g).g, BodyIds(b) + HeldIds(frames))
    decreases FramesWeight(frames) + BodyWeight(b), 0
  {
    var inner := [Frame(b.id, [])] + frames;
    var ids := BodyIds(b) + HeldIds(frames);
    assert inner[1..] == frames;
    var e := EmitStmts(b.stmts, inner, loops, g);
    EmitStmtsGrows(b.stmts, inner, loops, g);
    GrowsMore(g, e.g, StmtsIds(b.stmts) + HeldIds(inner), ids);
    if e.open {
      var r := EmitBodies(Registered(b.stmts), e.g);
      EmitBodiesGrows(Registered(b.stmts), e.g);
      RegisteredIds(b.stmts);
      GrowsMore(e.g, r, BodiesIds(Registered(b.stmts)), ids);
      GrowsTrans(g, e.g, r, ids);
    }
  }

  lemma HoldIds(frames: seq<Frame>, d: Body)
    requires frames != []
    ensures HeldIds(Hold(frames, d)) == HeldIds(frames) + BodyIds(d)
    ensures FrameBodies(Hold(frames, d)) == FrameBodies(frames)
  {
    var h := Hold(frames, d);
    BodiesIdsConcat(frames[0].defers, [d]);
    assert [d][1..] == [];
    assert h[1..] == frames[1..];
    assert forall f :: f in h ==> f == h[0] || f in frames[1..];
    assert forall f :: f in frames ==> f == frames[0] || f in h[1..];
    assert h[0] in h;
  }

  /** What one statement adds; a jump ends the list. */
  function StepStmt(s: Stmt, frames: seq<Frame>, loops: seq<Loop>, g: Gen): (r: Gen)
    requires frames != []
  {
    match s
    case Eval(ps) => EmitPieces(ps, g)
    case Return(_, v) => EmitJump(ReturnWith(v), Exit, DefersUpTo(frames, None), g)
    case Control(_, isBreak, name) =>
      var goal := GoalOf(Leave(isBreak, name), loops);
      EmitJump(Leave(isBreak, name), goal, DefersUpTo(frames, LimitOf(goal)), g)
    case While(id, name, guard, body) => EmitWhile(id, name, guard, body, frames, loops, g)
    case If(main, elseIfs, otherwise) => EmitIf(main, elseIfs, otherwise, frames, loops, g)
    case Defer(_) => g
  }

  lemma EmitStmtsUnfold(ss: seq<Stmt>, frames: seq<Frame>, loops: seq<Loop>, g: Gen)
    requires frames != [] && ss != []
    ensures EmitStmts(ss, frames, loops, g) ==
      var g1 := StepStmt(ss[0], frames, loops, g);
      if ss[0].Return? || ss[0].Control? then Emitted(g1, false)
      else EmitStmts(ss[1..], StepFrames(ss[0], frames), loops, g1)
  {
  }

  lemma {:induction false} EmitStmtsGrows(ss: seq<Stmt>, frames: seq<Frame>, loops: seq<Loop>, g: Gen)
    requires frames != [] && g.Settled()
    ensures EmitStmts(ss, frames, loops, g).g.Settled()
    ensures Grows(g, EmitStmts(ss, frames, loops, g).g, StmtsIds(ss) + HeldIds(frames))
    decreases FramesWeight(frames) + StmtsWeight(ss), 2
  {
    if ss != [] {
      var ids := StmtsIds(ss) + HeldIds(frames);
      var g1 := StepStmt(ss[0], frames, loops, g);
      EmitStmtsUnfold(ss, frames, loops, g);
      StepStmtGrows(ss[0], frames, loops, g);
      GrowsMore(g, g1, StmtIds(ss[0]) + HeldIds(frames), ids);
      if !ss[0].Return? && !ss[0].Control? {
        var frames1 := StepFrames(ss[0], frames);
        var g2 := EmitStmts(ss[1..], frames1, loops, g1).g;
        StepFramesIds(ss[0], frames);
        EmitStmtsGrows(ss[1..], frames1, loops, g1);
        GrowsMore(g1, g2, StmtsIds(ss[1..]) + HeldIds(frames1), ids);
        GrowsTrans(g, g1, g2, ids);
      }
    }
  }

  lemma StepFramesIds(s: Stmt, frames: seq<Frame>)
    requires frames != []
    ensures HeldIds(StepFrames(s, frames)) <= HeldIds(frames) + StmtIds(s)
    ensures FrameBodies(StepFrames(s, frames)) == FrameBodies(frames)
  {
    if s.Defer? {
      HoldIds(frames, s.body);
    }
  }

  lemma {:induction false} StepStmtGrows(s: Stmt, frames: seq<Frame>, loops: seq<Loop>, g: Gen)
    requires frames != [] && g.Settled()
    ensures StepStmt(s, frames, loops, g).Settled()
    ensures Grows(g, StepStmt(s, frames, loops, g), StmtIds(s) + HeldIds(frames))
    decreases FramesWeight(frames) + StmtWeight(s), 1
  {
    var ids := StmtIds(s) + HeldIds(frames);
    var r := StepStmt(s, frames, loops, g);
    match s
    case Eval(ps) => EmitPiecesGrows(ps, g);
    case Return(_, v) =>
      var ds := DefersUpTo(frames, None);
      EmitJumpGrows(ReturnWith(v), Exit, ds, g);
      DefersUpToIds(frames, None);
      GrowsMore(g, r, BodiesIds(ds), ids);
    case Control(_, isBreak, name) =>
      var goal := GoalOf(Leave(isBreak, name), loops);
      var ds := DefersUpTo(frames, LimitOf(goal));
      EmitJumpGrows(Leave(isBreak, name), goal, ds, g);
      DefersUpToIds(frames, LimitOf(goal));
      GrowsMore(g, r, BodiesIds(ds), ids);
    case While(id, name, guard, body) =>
      EmitWhileGrows(id, name, guard, body, frames, loops, g);
    case If(main, elseIfs, otherwise) =>
      EmitIfGrows(main, elseIfs, otherwise, frames, loops, g);
    case Defer(_) =>
  }

  lemma OpenWhileGrows(id: nat, guard: Operand, g: Gen)
    requires g.Settled()
    ensures var r := OpenWhile(id, guard, g); var n := |g.blocks|;
      && r.Settled() && r.pos == n + 1 && Grows(g, r, {id})
      && r.blocks[n + 1] == [] && r.blocks[n + 2] == []
      && id in r.targets && r.targets[id] == LoopBlocks(n, n + 2)
  {
    var n := |g.blocks|;
    var g2 := AppendThree(g).(targets := g.targets[id := LoopBlocks(n, n + 2)]);
    var g3 := MoveTo(Append(g2, Br(n)), n);
    var g4 := Append(EmitPieces(guard.pieces, g3), CondBr(guard.result, n + 1, n + 2));
    WhileHeadGrows(g, g2, g3, n, id);
    GuardGrows(g3, guard, n + 1, n + 2);
    GrowsMore(g3, g4, {}, {id});
    GrowsTrans(g, g3, g4, {id});
    assert OpenWhile(id, guard, g) == MoveTo(g4, n + 1);
  }

  lemma GuardGrows(g: Gen, guard: Operand, thenBlock: nat, elseBlock: nat)
    requires g.Settled()
    ensures var r := Append(EmitPieces(guard.pieces, g), CondBr(guard.result, thenBlock, elseBlock));
      r.Settled() && Grows(g, r, {}) && r.pos == g.pos && r.targets == EmitPieces(guard.pieces, g).targets
  {
    var g1 := EmitPieces(guard.pieces, g);
    EmitPiecesGrows(guard.pieces, g);
    AppendGrows(g1, CondBr(guard.result, thenBlock, elseBlock));
    GrowsTrans(g, g1, Append(g1, CondBr(guard.result, thenBlock, elseBlock)), {});
  }

  lemma WhileHeadGrows(g: Gen, g2: Gen, g3: Gen, n: nat, id: nat)
    requires g.Settled() && n == |g.blocks| && g2 == AppendThree(g).(targets := g.targets[id := LoopBlocks(n, n + 2)])
    requires g3 == MoveTo(Append(g2, Br(n)), n)
    ensures g3.Settled() && Grows(g, g3, {id}) && |g3.blocks| == n + 3 && g3.blocks[n + 1] == [] && g3.blocks[n + 2] == []
  {
  }

  lemma CloseWithGrows(e: Emitted, target: nat)
    requires e.g.Settled()
    ensures CloseWith(e, target).Settled() && Grows(e.g, CloseWith(e, target), {})
    ensures CloseWith(e, target).pos == e.g.pos && CloseWith(e, target).targets == e.g.targets
  {
  }

  lemma {:induction false} EmitWhileGrows(id: nat, name: Option<string>, guard: Operand, body: Body,
                                          frames: seq<Frame>, loops: seq<Loop>, g: Gen)
    requires g.Settled()
    ensures EmitWhile(id, name, guard, body, frames, loops, g).Settled()
    ensures Grows(g, EmitWhile(id, name, guard, body, frames, loops, g), {id} + BodyIds(body) + HeldIds(frames))
    ensures EmitWhile(id, name, guard, body, frames, loops, g).pos == |g.blocks| + 2
    ensures EmitWhile(id, name, guard, body, frames, loops, g).blocks[|g.blocks| + 2] == []
    decreases FramesWeight(frames) + BodyWeight(body) + 1, 0
  {
    var n := |g.blocks|;
    var ids := {id} + BodyIds(body) + HeldIds(frames);
    var g1 := OpenWhile(id, guard, g);
    OpenWhileGrows(id, guard, g);
    var e := EmitBody(body, frames, loops + [Loop(id, name, body.id)], g1);
    EmitBodyGrows(body, frames, loops + [Loop(id, name, body.id)], g1);
    var g2 := CloseWith(e, n);
    CloseWithGrows(e, n);
    GrowsMore(g, g1, {id}, ids);
    GrowsMore(g1, e.g, BodyIds(body) + HeldIds(frames), ids);
    GrowsMore(e.g, g2, {}, ids);
    GrowsTrans(g1, e.g, g2, ids);
    GrowsTrans(g, g1, g2, ids);
  }

  /** One arm writes to the current block and to its own branch block, and moves on to a third. */
  ghost predicate ArmGrows(g0: Gen, g1: Gen, thenBlock: nat, ids: set<nat>) {
    && |g0.blocks| <= |g1.blocks|
    && g1.definitions == g0.definitions
    && (forall i :: 0 <= i < |g0.blocks| ==> g0.blocks[i] <= g1.blocks[i])
    && (forall i :: 0 <= i < |g0.blocks| && i != g0.pos && i != thenBlock && i != g0.definitions ==>
          g1.blocks[i] == g0.blocks[i])
    && OnlySlots(g0.blocks[g0.definitions], g1.blocks[g0.definitions])
    && (forall id :: id in g0.targets && id !in ids ==> id in g1.targets && g1.targets[id] == g0.targets[id])
  }

  lemma {:induction false} EmitArmGrows(c: Clause, thenBlock: nat, elseBlock: nat, endBlock: nat,
                                        frames: seq<Frame>, loops: seq<Loop>, g: Gen)
    requires g.Settled() && thenBlock < |g.blocks| && elseBlock < |g.blocks|
    requires thenBlock != g.definitions && elseBlock != g.definitions
    ensures EmitArm(c, thenBlock, elseBlock, endBlock, frames, loops, g).Settled()
    ensures ArmGrows(g, EmitArm(c, thenBlock, elseBlock, endBlock, frames, loops, g), thenBlock,
                     ClauseIds(c) + HeldIds(frames))
    decreases FramesWeight(frames) + ClauseWeight(c), 0
  {
    var ids := ClauseIds(c) + HeldIds(frames);
    var g1 := EmitPieces(c.guard.pieces, g);
    EmitPiecesGrows(c.guard.pieces, g);
    var g2 := Append(g1, CondBr(c.guard.result, thenBlock, elseBlock));
    AppendGrows(g1, CondBr(c.guard.result, thenBlock, elseBlock));
    GrowsTrans(g, g1, g2, {});
    var g3 := MoveTo(g2, thenBlock);
    var e := EmitBody(c.body, frames, loops, g3);
    EmitBodyGrows(c.body, frames, loops, g3);
    var g4 := CloseWith(e, endBlock);
    CloseWithGrows(e, endBlock);
    GrowsMore(e.g, g4, {}, ids);
    GrowsTrans(g3, e.g, g4, ids);
    ArmSteps(g, g2, g3, g4, thenBlock, ids);
  }

  lemma ArmSteps(g: Gen, g2: Gen, g3: Gen, g4: Gen, thenBlock: nat, ids: set<nat>)
    requires g.Settled() && Grows(g, g2, {}) && thenBlock < |g2.blocks| && g3 == MoveTo(g2, thenBlock)
    requires thenBlock != g.definitions && Grows(g3, g4, ids)
    ensures ArmGrows(g, g4, thenBlock, ids)
  {
    forall i | 0 <= i < |g.blocks|
      ensures g.blocks[i] <= g4.blocks[i]
    {
      assert g.blocks[i] <= g2.blocks[i] <= g4.blocks[i];
    }
  }

  lemma ArmKeepsGrowing(base: Gen, g: Gen, r: Gen, thenBlock: nat, armIds: set<nat>, ids: set<nat>)
    requires base.Settled() && Grows(base, g, ids) && ArmGrows(g, r, thenBlock, armIds) && armIds <= ids
    requires thenBlock >= |base.blocks| && r.pos >= |base.blocks|
    ensures Grows(base, r, ids)
  {
    forall i | 0 <= i < |base.blocks|
      ensures base.blocks[i] <= r.blocks[i]
    {
      assert base.blocks[i] <= g.blocks[i] <= r.blocks[i];
    }
  }

  lemma AppendBlockGrows(base: Gen, g: Gen, ids: set<nat>)
    requires Grows(base, g, ids)
    ensures Grows(base, AppendBlock(g), ids)
  {
  }

  lemma GrowsSelf(g: Gen, ids: set<nat>)
    ensures Grows(g, g, ids)
  {
  }

  lemma ThreeGrow(g: Gen, ids: set<nat>)
    requires g.Settled()
    ensures var r := AppendThree(g); r.Settled() && Grows(g, r, ids) && r.pos == g.pos
  {
  }

  lemma ThreeThenArm(g: Gen, r: Gen, armIds: set<nat>, ids: set<nat>)
    requires g.Settled() && ArmGrows(AppendThree(g), r, |g.blocks|, armIds) && armIds <= ids
    requires r.pos == |g.blocks| + 1
    ensures Grows(g, r, ids)
  {
    ThreeGrow(g, ids);
    ArmKeepsGrowing(g, AppendThree(g), r, |g.blocks|, armIds, ids);
  }

  lemma {:induction false} MainArmGrows(main: Clause, frames: seq<Frame>, loops: seq<Loop>, g: Gen, ids: set<nat>)
    requires g.Settled() && ClauseIds(main) + HeldIds(frames) <= ids
    ensures var n := |g.blocks|; var g1 := EmitArm(main, n, n + 1, n + 2, frames, loops, AppendThree(g));
      g1.Settled() && Grows(g, g1, ids) && g1.pos == n + 1
    decreases FramesWeight(frames) + ClauseWeight(main), 1
  {
    var n := |g.blocks|;
    ThreeGrow(g, ids);
    EmitArmGrows(main, n, n + 1, n + 2, frames, loops, AppendThree(g));
    ThreeThenArm(g, EmitArm(main, n, n + 1, n + 2, frames, loops, AppendThree(g)), ClauseIds(main) + HeldIds(frames), ids);
  }

  lemma {:induction false} EmitIfGrows(main: Clause, elseIfs: seq<Clause>, otherwise: Option<Body>,
                                       frames: seq<Frame>, loops: seq<Loop>, g: Gen)
    requires g.Settled()
    ensures EmitIf(main, elseIfs, otherwise, frames, loops, g).Settled()
    ensures EmitIf(main, elseIfs, otherwise, frames, loops, g).pos == |g.blocks| + 2
    ensures Grows(g, EmitIf(main, elseIfs, otherwise, frames, loops, g),
                  ClauseIds(main) + ClausesIds(elseIfs) + OtherwiseIds(otherwise) + HeldIds(frames))
    decreases FramesWeight(frames) + ClauseWeight(main) + ClausesWeight(elseIfs) + OtherwiseWeight(otherwise) + 1, 0
  {
    ArmAndElseGrow(main, elseIfs, otherwise, frames, loops, g,
                   ClauseIds(main) + ClausesIds(elseIfs) + OtherwiseIds(otherwise) + HeldIds(frames));
  }

  lemma {:induction false} ArmAndElseGrow(main: Clause, elseIfs: seq<Clause>, otherwise: Option<Body>,
                                          frames: seq<Frame>, loops: seq<Loop>, g: Gen, ids: set<nat>)
    requires g.Settled() && ClauseIds(main) + HeldIds(frames) <= ids
    requires ClausesIds(elseIfs) + OtherwiseIds(otherwise) + HeldIds(frames) <= ids
    ensures var n := |g.blocks|; var g1 := EmitArm(main, n, n + 1, n + 2, frames, loops, AppendThree(g));
      var r := EmitElse(elseIfs, otherwise, n + 2, frames, loops, g1);
      r.Settled() && r.pos == n + 2 && Grows(g, r, ids)
    decreases FramesWeight(frames) + ClauseWeight(main) + ClausesWeight(elseIfs) + OtherwiseWeight(otherwise), 4
  {
    var n := |g.blocks|;
    MainArmGrows(main, frames, loops, g, ids);
    AlternativesGrow(g, EmitArm(main, n, n + 1, n + 2, frames, loops, AppendThree(g)), ids, elseIfs, otherwise, frames, loops);
  }

  lemma {:induction false} AlternativesGrow(g: Gen, g1: Gen, ids: set<nat>, elseIfs: seq<Clause>, otherwise: Option<Body>,
                                            frames: seq<Frame>, loops: seq<Loop>)
    requires g.Settled() && g1.Settled() && Grows(g, g1, ids) && g1.pos == |g.blocks| + 1 && |g.blocks| + 2 < |g1.blocks|
    requires ClausesIds(elseIfs) + OtherwiseIds(otherwise) + HeldIds(frames) <= ids
    ensures var r := EmitElse(elseIfs, otherwise, |g.blocks| + 2, frames, loops, g1);
      r.Settled() && r.pos == |g.blocks| + 2 && Grows(g, r, ids)
    decreases FramesWeight(frames) + ClausesWeight(elseIfs) + OtherwiseWeight(otherwise), 3
  {
    EmitElseGrows(g, ids, elseIfs, otherwise, |g.blocks| + 2, frames, loops, g1);
  }

  lemma WhileIs(id: nat, name: Option<string>, guard: Operand, body: Body, frames: seq<Frame>, loops: seq<Loop>, g: Gen)
    ensures var n := |g.blocks|; var e := EmitBody(body, frames, loops + [Loop(id, name, body.id)], OpenWhile(id, guard, g));
      n + 2 < |e.g.blocks| && EmitWhile(id, name, guard, body, frames, loops, g) == MoveTo(CloseWith(e, n), n + 2)
  {
  }

  lemma {:induction false} ElseArmGrows(base: Gen, ids: set<nat>, c: Clause, endBlock: nat, frames: seq<Frame>,
                                        loops: seq<Loop>, g: Gen)
    requires base.Settled() && g.Settled() && Grows(base, g, ids)
    requires ClauseIds(c) + HeldIds(frames) <= ids
    ensures var n := |g.blocks|; var g1 := EmitArm(c, n + 1, n, endBlock, frames, loops, AppendBlock(AppendBlock(g)));
      g1.Settled() && Grows(base, g1, ids) && g1.pos == n
    decreases FramesWeight(frames) + ClauseWeight(c), 1
  {
    var n := |g.blocks|;
    var g0 := AppendBlock(AppendBlock(g));
    EmitArmGrows(c, n + 1, n, endBlock, frames, loops, g0);
    AppendBlockGrows(base, g, ids);
    AppendBlockGrows(base, AppendBlock(g), ids);
    ArmKeepsGrowing(base, g0, EmitArm(c, n + 1, n, endBlock, frames, loops, g0), n + 1, ClauseIds(c) + HeldIds(frames), ids);
  }

  lemma {:induction false} LastElseGrows(base: Gen, ids: set<nat>, b: Body, endBlock: nat, frames: seq<Frame>,
                                         loops: seq<Loop>, g: Gen)
    requires base.Settled() && g.Settled() && Grows(base, g, ids)
    requires BodyIds(b) + HeldIds(frames) <= ids
    ensures var r := CloseWith(EmitBody(b, frames, loops, g), endBlock); r.Settled() && Grows(base, r, ids)
    decreases FramesWeight(frames) + BodyWeight(b), 1
  {
    var e := EmitBody(b, frames, loops, g);
    EmitBodyGrows(b, frames, loops, g);
    CloseWithGrows(e, endBlock);
    GrowsMore(g, e.g, BodyIds(b) + HeldIds(frames), ids);
    GrowsMore(e.g, CloseWith(e, endBlock), {}, ids);
    GrowsTrans(g, e.g, CloseWith(e, endBlock), ids);
    GrowsTrans(base, g, CloseWith(e, endBlock), ids);
  }

  /** The alternatives of an `if` only write to blocks made since `base`, the state before the `if`. */
  lemma {:induction false} EmitElseGrows(base: Gen, ids: set<nat>, cs: seq<Clause>, otherwise: Option<Body>,
                                         endBlock: nat, frames: seq<Frame>, loops: seq<Loop>, g: Gen)
    requires base.Settled() && g.Settled() && Grows(base, g, ids) && g.pos >= |base.blocks|
    requires |base.blocks| <= endBlock < |g.blocks|
    requires ClausesIds(cs) + OtherwiseIds(otherwise) + HeldIds(frames) <= ids
    ensures EmitElse(cs, otherwise, endBlock, frames, loops, g).Settled()
    ensures EmitElse(cs, otherwise, endBlock, frames, loops, g).pos == endBlock
    ensures Grows(base, EmitElse(cs, otherwise, endBlock, frames, loops, g), ids)
    decreases FramesWeight(frames) + ClausesWeight(cs) + OtherwiseWeight(otherwise), 2
  {
    if cs != [] {
      var n := |g.blocks|;
      ElseArmGrows(base, ids, cs[0], endBlock, frames, loops, g);
      EmitElseGrows(base, ids, cs[1..], otherwise, endBlock, frames, loops,
                    EmitArm(cs[0], n + 1, n, endBlock, frames, loops, AppendBlock(AppendBlock(g))));
    } else {
      match otherwise
      case None =>
        AppendGrows(g, Br(endBlock));
        GrowsMore(g, Append(g, Br(endBlock)), {}, ids);
        GrowsTrans(base, g, Append(g, Br(endBlock)), ids);
      case Some(b) =>
        LastElseGrows(base, ids, b, endBlock, frames, loops, g);
    }
  }
}
