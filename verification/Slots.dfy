/** Which stack slots the definitions block of a function holds: exactly one for each that lowering asks
    for, in order, copies of replayed defers included. */
module Slots {
  import opened Options
  import opened Sequences
  import opened Syntax
  import opened Defers
  import opened Emission
  import opened Growth
  import opened Compiler

  // ---------- one expression ----------

  function Allocas(ts: seq<nat>): Block {
    seq(|ts|, i requires 0 <= i < |ts| => Alloca(ts[i]))
  }

  function Acts(actions: seq<nat>): Block {
    seq(|actions|, i requires 0 <= i < |actions| => Act(actions[i]))
  }

  lemma AllocasConcat(a: seq<nat>, b: seq<nat>)
    ensures Allocas(a + b) == Allocas(a) + Allocas(b)
  {
  }

  lemma ActsConcat(a: seq<nat>, b: seq<nat>)
    ensures Acts(a + b) == Acts(a) + Acts(b)
  {
  }

  /** `g` with more code at the end of the builder's block and more slots at the end of the definitions. */
  function With(g: Gen, acts: Block, slots: Block): Gen
    requires g.Settled()
  {
    g.(blocks := g.blocks[g.pos := g.blocks[g.pos] + acts][g.definitions := g.blocks[g.definitions] + slots])
  }

  lemma WithTwice(g: Gen, acts: Block, slots: Block, acts': Block, slots': Block)
    requires g.Settled()
    ensures With(With(g, acts, slots), acts', slots') == With(g, acts + acts', slots + slots')
    ensures With(g, [], []) == g
  {
    Associate(g.blocks[g.pos], acts, acts');
    Associate(g.blocks[g.definitions], slots, slots');
    assert g.blocks[g.pos] + [] == g.blocks[g.pos] && g.blocks[g.definitions] + [] == g.blocks[g.definitions];
    assert With(With(g, acts, slots), acts', slots').blocks == With(g, acts + acts', slots + slots').blocks;
  }

  /** The builder's block gets the actions of an expression and the definitions block its slots, each in
      the order written; nothing else changes. */
  lemma {:induction false} PiecesParted(ps: seq<Piece>, g: Gen)
    requires g.Settled()
    ensures EmitPieces(ps, g) == With(g, Acts(Actions(ps)), Allocas(SlotTypes(ps)))
    decreases |ps|
  {
    if ps == [] {
      WithTwice(g, [], [], [], []);
      assert Acts([]) == [] && Allocas([]) == [];
    } else {
      var acts, slots := Acts(Actions(ps[1..])), Allocas(SlotTypes(ps[1..]));
      match ps[0] {
        case Do(a) =>
          assert g.blocks[g.definitions] + [] == g.blocks[g.definitions];
          assert Append(g, Act(a)).blocks == With(g, [Act(a)], []).blocks;
          PiecesParted(ps[1..], Append(g, Act(a)));
          WithTwice(g, [Act(a)], [], acts, slots);
          ActsConcat([a], Actions(ps[1..]));
          assert Acts([a]) == [Act(a)] && [] + slots == slots;
        case Slot(t) =>
          assert g.blocks[g.pos] + [] == g.blocks[g.pos];
          assert AppendSlot(g, t).blocks == With(g, [], [Alloca(t)]).blocks;
          PiecesParted(ps[1..], AppendSlot(g, t));
          WithTwice(g, [], [Alloca(t)], acts, slots);
          AllocasConcat([t], SlotTypes(ps[1..]));
          assert Allocas([t]) == [Alloca(t)] && [] + acts == acts;
      }
    }
  }

  // ---------- statements ----------

  function SlotsOfBodies(ds: seq<Body>): seq<nat>
    decreases BodiesWeight(ds), 1
  {
    if ds == [] then [] else SlotsOfBody(ds[0], [], []) + SlotsOfBodies(ds[1..])
  }

  /** A body that can be left at its end replays its defers there. */
  function SlotsOfBody(b: Body, frames: seq<Frame>, loops: seq<Loop>): seq<nat>
    decreases FramesWeight(frames) + BodyWeight(b), 0
  {
    SlotsOfStmts(b.stmts, [Frame(b.id, [])] + frames, loops)
    + if FallsThrough(b.stmts) then SlotsOfBodies(Registered(b.stmts)) else []
  }

  /** Nothing after a jump is lowered. */
  function SlotsOfStmts(ss: seq<Stmt>, frames: seq<Frame>, loops: seq<Loop>): seq<nat>
    requires frames != []
    decreases FramesWeight(frames) + StmtsWeight(ss), 2
  {
    if ss == [] then []
    else
      SlotsOfStmt(ss[0], frames, loops)
      + if ss[0].Return? || ss[0].Control? then [] else SlotsOfStmts(ss[1..], StepFrames(ss[0], frames), loops)
  }

  /** A jump replays the defers of the bodies that it leaves. */
  function SlotsOfStmt(s: Stmt, frames: seq<Frame>, loops: seq<Loop>): seq<nat>
    requires frames != []
    decreases FramesWeight(frames) + StmtWeight(s), 1
  {
    match s
    case Eval(ps) => SlotTypes(ps)
    case Return(_, v) => SlotsOfBodies(DefersUpTo(frames, None)) + if v.Some? then SlotTypes(v.value.pieces) else []
    case Control(_, isBreak, name) => SlotsOfBodies(DefersUpTo(frames, LimitOf(GoalOf(Leave(isBreak, name), loops))))
    case While(loop, name, guard, body) =>
      SlotTypes(guard.pieces) + SlotsOfBody(body, frames, loops + [Loop(loop, name, body.id)])
    case If(main, elseIfs, otherwise) =>
      SlotsOfClause(main, frames, loops) + SlotsOfElse(elseIfs, otherwise, frames, loops)
    case Defer(_) => []
  }

  function SlotsOfClause(c: Clause, frames: seq<Frame>, loops: seq<Loop>): seq<nat>
    decreases FramesWeight(frames) + ClauseWeight(c), 0
  {
    SlotTypes(c.guard.pieces) + SlotsOfBody(c.body, frames, loops)
  }

  function SlotsOfElse(cs: seq<Clause>, otherwise: Option<Body>, frames: seq<Frame>, loops: seq<Loop>): seq<nat>
    decreases FramesWeight(frames) + ClausesWeight(cs) + OtherwiseWeight(otherwise), 1
  {
    if cs != [] then SlotsOfClause(cs[0], frames, loops) + SlotsOfElse(cs[1..], otherwise, frames, loops)
    else match otherwise
      case None => []
      case Some(b) => SlotsOfBody(b, frames, loops)
  }

  // ---------- and they are there ----------

  /** From `g0` to `g1`, the definitions block got the slots `ts` and nothing else. */
  predicate Adds(g0: Gen, g1: Gen, ts: seq<nat>) {
    g1.definitions == g0.definitions && g1.blocks[g1.definitions] == g0.blocks[g0.definitions] + Allocas(ts)
  }

  lemma AddsTrans(g0: Gen, g1: Gen, g2: Gen, a: seq<nat>, b: seq<nat>)
    requires Adds(g0, g1, a) && Adds(g1, g2, b)
    ensures Adds(g0, g2, a + b)
  {
    AllocasConcat(a, b);
    Associate(g0.blocks[g0.definitions], Allocas(a), Allocas(b));
  }

  /** Anything that leaves the definitions block alone. */
  lemma AddsNone(g0: Gen, g1: Gen, g2: Gen, ts: seq<nat>)
    requires Adds(g0, g1, ts) && g2.definitions == g1.definitions && g2.blocks[g2.definitions] == g1.blocks[g1.definitions]
    ensures Adds(g0, g2, ts)
  {
  }

  lemma AddsNothing(g: Gen)
    ensures Adds(g, g, [])
  {
    assert g.blocks[g.definitions] + [] == g.blocks[g.definitions];
  }

  lemma PiecesAdd(ps: seq<Piece>, g: Gen)
    requires g.Settled()
    ensures Adds(g, EmitPieces(ps, g), SlotTypes(ps)) && EmitPieces(ps, g).Settled()
  {
    PiecesParted(ps, g);
  }

  lemma {:induction false} BodiesAdd(ds: seq<Body>, g: Gen)
    requires g.Settled()
    ensures Adds(g, EmitBodies(ds, g), SlotsOfBodies(ds))
    decreases BodiesWeight(ds), 1
  {
    if ds == [] {
      AddsNothing(g);
    } else {
      var g1 := EmitBody(ds[0], [], [], g).g;
      EmitBodyGrows(ds[0], [], [], g);
      BodyAdds(ds[0], [], [], g);
      BodiesAdd(ds[1..], g1);
      AddsTrans(g, g1, EmitBodies(ds, g), SlotsOfBody(ds[0], [], []), SlotsOfBodies(ds[1..]));
    }
  }

  lemma {:induction false} JumpAdds(j: Jump, goal: Goal, ds: seq<Body>, g: Gen)
    requires g.Settled()
    ensures Adds(g, EmitJump(j, goal, ds, g),
                 SlotsOfBodies(ds) + if j.ReturnWith? && j.value.Some? then SlotTypes(j.value.value.pieces) else [])
    decreases BodiesWeight(ds), 2
  {
    var g1 := EmitBodies(ds, g);
    EmitBodiesGrows(ds, g);
    BodiesAdd(ds, g);
    if j.ReturnWith? && j.value.Some? {
      var v := j.value.value;
      var g2 := EmitPieces(v.pieces, g1);
      PiecesAdd(v.pieces, g1);
      AddsTrans(g, g1, g2, SlotsOfBodies(ds), SlotTypes(v.pieces));
      AddsNone(g, g2, EmitJump(j, goal, ds, g), SlotsOfBodies(ds) + SlotTypes(v.pieces));
    } else {
      assert SlotsOfBodies(ds) + [] == SlotsOfBodies(ds);
      AddsNone(g, g1, EmitJump(j, goal, ds, g), SlotsOfBodies(ds));
    }
  }

  /** A body's slots, however deep they are asked for, are all added, in order, and no others. */
  lemma {:induction false} BodyAdds(b: Body, frames: seq<Frame>, loops: seq<Loop>, g: Gen)
    requires g.Settled()
    ensures Adds(g, EmitBody(b, frames, loops, g).g, SlotsOfBody(b, frames, loops))
    decreases FramesWeight(frames) + BodyWeight(b), 0
  {
    var inner := [Frame(b.id, [])] + frames;
    assert inner[1..] == frames;
    var own := SlotsOfStmts(b.stmts, inner, loops);
    var e := EmitStmts(b.stmts, inner, loops, g);
    EmitStmtsGrows(b.stmts, inner, loops, g);
    StmtsAdd(b.stmts, inner, loops, g);
    OpenExactly(b.stmts, inner, loops, g);
    if e.open {
      BodiesAdd(Registered(b.stmts), e.g);
      AddsTrans(g, e.g, EmitBodies(Registered(b.stmts), e.g), own, SlotsOfBodies(Registered(b.stmts)));
    } else {
      assert own + [] == own;
    }
  }

  lemma {:induction false} StmtsAdd(ss: seq<Stmt>, frames: seq<Frame>, loops: seq<Loop>, g: Gen)
    requires frames != [] && g.Settled()
    ensures Adds(g, EmitStmts(ss, frames, loops, g).g, SlotsOfStmts(ss, frames, loops))
    decreases FramesWeight(frames) + StmtsWeight(ss), 2
  {
    if ss == [] {
      AddsNothing(g);
    } else {
      var own := SlotsOfStmt(ss[0], frames, loops);
      var g1 := StepStmt(ss[0], frames, loops, g);
      EmitStmtsUnfold(ss, frames, loops, g);
      StepStmtGrows(ss[0], frames, loops, g);
      StmtAdds(ss[0], frames, loops, g);
      if ss[0].Return? || ss[0].Control? {
        assert own + [] == own;
      } else {
        var frames1 := StepFrames(ss[0], frames);
        StmtsAdd(ss[1..], frames1, loops, g1);
        AddsTrans(g, g1, EmitStmts(ss[1..], frames1, loops, g1).g, own, SlotsOfStmts(ss[1..], frames1, loops));
      }
    }
  }

  lemma {:induction false} StmtAdds(s: Stmt, frames: seq<Frame>, loops: seq<Loop>, g: Gen)
    requires frames != [] && g.Settled()
    ensures Adds(g, StepStmt(s, frames, loops, g), SlotsOfStmt(s, frames, loops))
    decreases FramesWeight(frames) + StmtWeight(s), 1
  {
    match s
    case Eval(ps) => PiecesAdd(ps, g);
    case Return(_, v) => JumpAdds(ReturnWith(v), Exit, DefersUpTo(frames, None), g);
    case Control(_, isBreak, name) =>
      var goal := GoalOf(Leave(isBreak, name), loops);
      var ds := DefersUpTo(frames, LimitOf(goal));
      JumpAdds(Leave(isBreak, name), goal, ds, g);
      assert SlotsOfBodies(ds) + [] == SlotsOfBodies(ds);
    case While(id, name, guard, body) => WhileAdds(id, name, guard, body, frames, loops, g);
    case If(main, elseIfs, otherwise) => IfAdds(main, elseIfs, otherwise, frames, loops, g);
    case Defer(_) => AddsNothing(g);
  }

  lemma OpenWhileAdds(id: nat, guard: Operand, g: Gen)
    requires g.Settled()
    ensures Adds(g, OpenWhile(id, guard, g), SlotTypes(guard.pieces))
  {
    var n := |g.blocks|;
    var g1 := AppendThree(g).(targets := g.targets[id := LoopBlocks(n, n + 2)]);
    var g2 := MoveTo(Append(g1, Br(n)), n);
    assert Adds(g, g2, []) by { AddsNothing(g); }
    PiecesAdd(guard.pieces, g2);
    AddsTrans(g, g2, EmitPieces(guard.pieces, g2), [], SlotTypes(guard.pieces));
    assert [] + SlotTypes(guard.pieces) == SlotTypes(guard.pieces);
  }

  lemma {:induction false} WhileAdds(id: nat, name: Option<string>, guard: Operand, body: Body, frames: seq<Frame>,
                                     loops: seq<Loop>, g: Gen)
    requires g.Settled()
    ensures Adds(g, EmitWhile(id, name, guard, body, frames, loops, g),
                 SlotTypes(guard.pieces) + SlotsOfBody(body, frames, loops + [Loop(id, name, body.id)]))
    decreases FramesWeight(frames) + BodyWeight(body) + 1, 0
  {
    var inner := loops + [Loop(id, name, body.id)];
    var g1 := OpenWhile(id, guard, g);
    var e := EmitBody(body, frames, inner, g1);
    var own := SlotTypes(guard.pieces) + SlotsOfBody(body, frames, inner);
    OpenWhileGrows(id, guard, g);
    OpenWhileAdds(id, guard, g);
    EmitBodyGrows(body, frames, inner, g1);
    BodyAdds(body, frames, inner, g1);
    AddsTrans(g, g1, e.g, SlotTypes(guard.pieces), SlotsOfBody(body, frames, inner));
    WhileIs(id, name, guard, body, frames, loops, g);
    AddsNone(g, e.g, EmitWhile(id, name, guard, body, frames, loops, g), own);
  }

  lemma {:induction false} ArmAdds(c: Clause, thenBlock: nat, elseBlock: nat, endBlock: nat, frames: seq<Frame>,
                                   loops: seq<Loop>, g: Gen)
    requires g.Settled() && thenBlock < |g.blocks| && elseBlock < |g.blocks|
    requires thenBlock != g.definitions && elseBlock != g.definitions
    ensures Adds(g, EmitArm(c, thenBlock, elseBlock, endBlock, frames, loops, g), SlotsOfClause(c, frames, loops))
    decreases FramesWeight(frames) + ClauseWeight(c), 0
  {
    var g1 := EmitPieces(c.guard.pieces, g);
    var g2 := MoveTo(Append(g1, CondBr(c.guard.result, thenBlock, elseBlock)), thenBlock);
    var e := EmitBody(c.body, frames, loops, g2);
    PiecesAdd(c.guard.pieces, g);
    AddsNone(g, g1, g2, SlotTypes(c.guard.pieces));
    EmitBodyGrows(c.body, frames, loops, g2);
    BodyAdds(c.body, frames, loops, g2);
    AddsTrans(g, g2, e.g, SlotTypes(c.guard.pieces), SlotsOfBody(c.body, frames, loops));
    AddsNone(g, e.g, EmitArm(c, thenBlock, elseBlock, endBlock, frames, loops, g), SlotsOfClause(c, frames, loops));
  }

  /** An arm after new blocks have been appended. */
  lemma {:induction false} ArmAfter(c: Clause, thenBlock: nat, elseBlock: nat, endBlock: nat, frames: seq<Frame>,
                                    loops: seq<Loop>, g: Gen, g0: Gen)
    requires g0.Settled() && g0.definitions == g.definitions && g0.blocks[g0.definitions] == g.blocks[g.definitions]
    requires thenBlock < |g0.blocks| && elseBlock < |g0.blocks| && thenBlock != g.definitions && elseBlock != g.definitions
    ensures var g1 := EmitArm(c, thenBlock, elseBlock, endBlock, frames, loops, g0);
      g1.Settled() && Adds(g, g1, SlotsOfClause(c, frames, loops))
    decreases FramesWeight(frames) + ClauseWeight(c), 1
  {
    var g1 := EmitArm(c, thenBlock, elseBlock, endBlock, frames, loops, g0);
    AddsNothing(g);
    AddsNone(g, g, g0, []);
    EmitArmGrows(c, thenBlock, elseBlock, endBlock, frames, loops, g0);
    ArmAdds(c, thenBlock, elseBlock, endBlock, frames, loops, g0);
    AddsTrans(g, g0, g1, [], SlotsOfClause(c, frames, loops));
    assert [] + SlotsOfClause(c, frames, loops) == SlotsOfClause(c, frames, loops);
  }

  lemma {:induction false} IfAdds(main: Clause, elseIfs: seq<Clause>, otherwise: Option<Body>, frames: seq<Frame>,
                                  loops: seq<Loop>, g: Gen)
    requires g.Settled()
    ensures Adds(g, EmitIf(main, elseIfs, otherwise, frames, loops, g),
                 SlotsOfClause(main, frames, loops) + SlotsOfElse(elseIfs, otherwise, frames, loops))
    decreases FramesWeight(frames) + ClauseWeight(main) + ClausesWeight(elseIfs) + OtherwiseWeight(otherwise) + 1, 0
  {
    var n := |g.blocks|;
    var g0 := AppendThree(g);
    var g1 := EmitArm(main, n, n + 1, n + 2, frames, loops, g0);
    ArmAfter(main, n, n + 1, n + 2, frames, loops, g, g0);
    ElseAdds(elseIfs, otherwise, n + 2, frames, loops, g1);
    AddsTrans(g, g1, EmitElse(elseIfs, otherwise, n + 2, frames, loops, g1), SlotsOfClause(main, frames, loops),
              SlotsOfElse(elseIfs, otherwise, frames, loops));
  }

  lemma {:induction false} ElseAdds(cs: seq<Clause>, otherwise: Option<Body>, endBlock: nat, frames: seq<Frame>,
                                    loops: seq<Loop>, g: Gen)
    requires g.Settled() && endBlock < |g.blocks|
    ensures Adds(g, EmitElse(cs, otherwise, endBlock, frames, loops, g), SlotsOfElse(cs, otherwise, frames, loops))
    decreases FramesWeight(frames) + ClausesWeight(cs) + OtherwiseWeight(otherwise), 2
  {
    if cs != [] {
      var n := |g.blocks|;
      var g0 := AppendBlock(AppendBlock(g));
      var g1 := EmitArm(cs[0], n + 1, n, endBlock, frames, loops, g0);
      ArmAfter(cs[0], n + 1, n, endBlock, frames, loops, g, g0);
      ElseAdds(cs[1..], otherwise, endBlock, frames, loops, g1);
      AddsTrans(g, g1, EmitElse(cs[1..], otherwise, endBlock, frames, loops, g1), SlotsOfClause(cs[0], frames, loops),
                SlotsOfElse(cs[1..], otherwise, frames, loops));
    } else {
      LastAdds(otherwise, endBlock, frames, loops, g);
    }
  }

  lemma {:induction false} LastAdds(otherwise: Option<Body>, endBlock: nat, frames: seq<Frame>, loops: seq<Loop>, g: Gen)
    requires g.Settled() && endBlock < |g.blocks|
    ensures Adds(g, EmitElse([], otherwise, endBlock, frames, loops, g), SlotsOfElse([], otherwise, frames, loops))
    decreases FramesWeight(frames) + OtherwiseWeight(otherwise), 1
  {
    match otherwise
    case None =>
      AddsNothing(g);
      AddsNone(g, g, MoveTo(Append(g, Br(endBlock)), endBlock), []);
    case Some(b) =>
      var e := EmitBody(b, frames, loops, g);
      EmitBodyGrows(b, frames, loops, g);
      BodyAdds(b, frames, loops, g);
      AddsNone(g, e.g, MoveTo(CloseWith(e, endBlock), endBlock), SlotsOfBody(b, frames, loops));
  }

  // ---------- the entry block ----------

  lemma EntryIs(f: FuncDecl)
    ensures EmitFunction(f).blocks[ENTRY] ==
            Straight(Prologue(f.params)) + Allocas(SlotsOfBody(f.body, [], [])) + [Br(CODE)]
  {
    var g1 := MoveTo(EmitPieces(Prologue(f.params), FRESH_FUNCTION), CODE);
    var e := EmitBody(f.body, [], [], g1);
    EntryPieces(Prologue(f.params), FRESH_FUNCTION);
    assert g1.blocks[ENTRY] == Straight(Prologue(f.params));
    EmitBodyGrows(f.body, [], [], g1);
    BodyAdds(f.body, [], [], g1);
    assert EmitFunction(f).blocks[ENTRY] == e.g.blocks[ENTRY] + [Br(CODE)];
  }

  /** Each parameter's slot and the action that fills it, one parameter after the other; then the slots of
      the body; then the jump to the code. */
  lemma EntrySlots(f: FuncDecl)
    ensures var entry, n := EmitFunction(f).blocks[ENTRY], |f.params|; var slots := SlotsOfBody(f.body, [], []);
      && |entry| == 2 * n + |slots| + 1
      && (forall i :: 0 <= i < n ==> entry[2 * i] == Alloca(f.params[i].slot) && entry[2 * i + 1] == Act(f.params[i].store))
      && (forall i :: 0 <= i < |slots| ==> entry[2 * n + i] == Alloca(slots[i]))
      && entry[2 * n + |slots|] == Br(CODE)
  {
    EntryIs(f);
    ParamsAt(f.params);
  }

  lemma {:induction false} ParamsAt(ps: seq<Param>)
    ensures var args := Straight(Prologue(ps));
      && |args| == 2 * |ps|
      && forall i :: 0 <= i < |ps| ==> args[2 * i] == Alloca(ps[i].slot) && args[2 * i + 1] == Act(ps[i].store)
  {
    if ps != [] {
      var args, rest := Straight(Prologue(ps)), Straight(Prologue(ps[1..]));
      ParamsAt(ps[1..]);
      var pieces := Prologue(ps);
      assert pieces[1..][0] == Do(ps[0].store) && pieces[1..][1..] == Prologue(ps[1..]);
      assert Straight(pieces[1..]) == [Act(ps[0].store)] + rest;
      assert args == [Alloca(ps[0].slot), Act(ps[0].store)] + rest;
      forall i | 0 <= i < |ps|
        ensures args[2 * i] == Alloca(ps[i].slot) && args[2 * i + 1] == Act(ps[i].store)
      {
        if i > 0 {
          assert ps[i] == ps[1..][i - 1];
          assert args[2 * i] == rest[2 * (i - 1)] && args[2 * i + 1] == rest[2 * (i - 1) + 1];
        }
      }
    }
  }
}
