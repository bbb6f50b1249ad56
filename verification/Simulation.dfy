/** Lowered code does what the body means: one step of the structured run after another is matched
    by steps of the blocks. */
module Simulation {
  import opened Options
  import opened Sequences
  import opened Syntax
  import opened Defers
  import opened Emission
  import opened Growth
  import opened Semantics

  // ---------- code that is part of the finished function ----------

  /** Every block of `g` is the beginning of the finished block. */
  ghost predicate Within(g: Gen, blocks: seq<Block>) {
    |g.blocks| <= |blocks| && forall i :: 0 <= i < |g.blocks| ==> g.blocks[i] <= blocks[i]
  }

  lemma WithinGrows(g0: Gen, g1: Gen, ids: set<nat>, blocks: seq<Block>)
    requires Grows(g0, g1, ids) && Within(g1, blocks)
    ensures Within(g0, blocks)
  {
    forall i | 0 <= i < |g0.blocks|
      ensures g0.blocks[i] <= blocks[i]
    {
      assert g0.blocks[i] <= g1.blocks[i] <= blocks[i];
    }
  }

  function Here(g: Gen, h: History): Config {
    At(g.pos, |g.blocks[g.pos]|, h)
  }

  lemma NextInstr(g: Gen, i: Instr, blocks: seq<Block>)
    requires Within(Append(g, i), blocks)
    ensures g.pos < |blocks| && |g.blocks[g.pos]| < |blocks[g.pos]| && blocks[g.pos][|g.blocks[g.pos]|] == i
    ensures Within(g, blocks)
  {
    var g1 := Append(g, i);
    assert g1.blocks[g.pos] <= blocks[g.pos];
    assert g1.blocks[g.pos][|g.blocks[g.pos]|] == i;
    forall k | 0 <= k < |g.blocks|
      ensures g.blocks[k] <= blocks[k]
    {
      assert g.blocks[k] <= g1.blocks[k] <= blocks[k];
    }
  }

  lemma RunOne(blocks: seq<Block>, orc: Oracle, c: Config)
    ensures Run(blocks, orc, c, 1) == Step(blocks, orc, c)
  {
    assert Run(blocks, orc, c, 1) == Run(blocks, orc, Step(blocks, orc, c), 0);
  }

  lemma {:induction false} SimPieces(ps: seq<Piece>, g: Gen, blocks: seq<Block>, orc: Oracle, h: History) returns (n: nat)
    requires g.Settled() && Within(EmitPieces(ps, g), blocks)
    ensures Run(blocks, orc, Here(g, h), n) == Here(EmitPieces(ps, g), AfterPieces(ps, h))
  {
    if ps == [] {
      n := 0;
    } else {
      match ps[0]
      case Do(a) =>
        var g1 := Append(g, Act(a));
        AppendGrows(g, Act(a));
        EmitPiecesGrows(ps[1..], g1);
        WithinGrows(g1, EmitPieces(ps, g), {}, blocks);
        NextInstr(g, Act(a), blocks);
        var m := SimPieces(ps[1..], g1, blocks, orc, h + [Did(a)]);
        assert Step(blocks, orc, Here(g, h)) == Here(g1, h + [Did(a)]);
        n := m + 1;
      case Slot(t) =>
        AppendSlotGrows(g, t);
        n := SimPieces(ps[1..], AppendSlot(g, t), blocks, orc, h);
    }
  }

  // ---------- the invariant ----------

  ghost predicate SameTargets(loops: seq<Loop>, g0: Gen, g1: Gen) {
    forall l :: l in loops ==> l.id in g0.targets && l.id in g1.targets && g0.targets[l.id] == g1.targets[l.id]
  }

  /** The state of analysis and builder around code that mentions the nodes `ids`. */
  ghost predicate Ready(ids: set<nat>, frames: seq<Frame>, loops: seq<Loop>, g: Gen) {
    && g.Settled()
    && Context(frames, loops)
    && ids !! ContextIds(frames, loops)
    && SameTargets(loops, g, g)
  }

  predicate JumpFits(j: Jump, loops: seq<Loop>, inDefer: bool) {
    match j
    case ReturnWith(_) => !inDefer
    case Leave(_, name) => FindLoop(loops, name).Some?
  }

  /** The defers still to run once body `done` has run its own. */
  function Rest(done: Option<nat>, frames: seq<Frame>, limit: Option<nat>): seq<Body> {
    if limit.Some? && limit == done then [] else DefersUpTo(frames, limit)
  }

  /** The code of the jump `j` from here on, with the defers `ds` ahead of it, is at `gj`; nothing
      lowered since `g0` moved the targets of the loops still open. */
  ghost predicate Pending(j: Jump, goal: Goal, ds: seq<Body>, loops: seq<Loop>, g0: Gen, gj: Gen, blocks: seq<Block>) {
    gj.Settled() && Within(EmitJump(j, goal, ds, gj), blocks) && SameTargets(loops, g0, gj)
  }

  /** `n` steps from `start` match the structured result `r` of code lowered from `g0` to `e`. */
  ghost predicate Tracks(r: Result, fuel: nat, e: Emitted, start: Config, n: nat, gj: Gen, done: Option<nat>,
                         frames: seq<Frame>, loops: seq<Loop>, inDefer: bool, g0: Gen, blocks: seq<Block>, orc: Oracle)
  {
    match r.out
    case OutOfFuel =>
      n >= fuel && Run(blocks, orc, start, n).At? && Run(blocks, orc, start, n).h == r.h
    case Normal =>
      n + r.fuel >= fuel && e.open && Run(blocks, orc, start, n) == Here(e.g, r.h)
    case Jumped(_, j, _) =>
      && n + r.fuel >= fuel && JumpFits(j, loops, inDefer)
      && Run(blocks, orc, start, n) == Here(gj, r.h)
      && var goal := GoalOf(j, loops);
         Pending(j, goal, Rest(done, frames, LimitOf(goal)), loops, g0, gj, blocks)
  }

  lemma TargetsKept(ids: set<nat>, loops: seq<Loop>, g0: Gen, g1: Gen)
    requires Grows(g0, g1, ids) && ids !! LoopIds(loops) && SameTargets(loops, g0, g0)
    ensures SameTargets(loops, g0, g1)
  {
    forall l | l in loops
      ensures l.id in g0.targets && l.id in g1.targets && g0.targets[l.id] == g1.targets[l.id]
    {
      assert l.id in LoopIds(loops);
    }
  }

  /** Emitting a body, with all the copies of defers that its jumps replay, leaves the targets of the loops
      around it alone, although a loop in a defer is emitted many times. */
  lemma BodyKeepsTargets(b: Body, frames: seq<Frame>, loops: seq<Loop>, g: Gen)
    requires Ready(BodyIds(b), frames, loops, g)
    ensures SameTargets(loops, g, EmitBody(b, frames, loops, g).g)
  {
    EmitBodyGrows(b, frames, loops, g);
    TargetsKept(BodyIds(b) + HeldIds(frames), loops, g, EmitBody(b, frames, loops, g).g);
  }

  lemma TargetsTrans(loops: seq<Loop>, g0: Gen, g1: Gen, g2: Gen)
    requires SameTargets(loops, g0, g1) && SameTargets(loops, g1, g2)
    ensures SameTargets(loops, g0, g2)
  {
  }

  /** `n` steps, then `m` steps that match `r`. */
  lemma TracksAfter(c0: Config, n: nat, c1: Config, r: Result, fuel0: nat, fuel1: nat, e: Emitted, m: nat, gj: Gen,
                    done: Option<nat>, frames: seq<Frame>, loops: seq<Loop>, inDefer: bool, g0: Gen, g1: Gen,
                    blocks: seq<Block>, orc: Oracle)
    returns (total: nat)
    requires Run(blocks, orc, c0, n) == c1 && n + fuel1 >= fuel0
    requires Tracks(r, fuel1, e, c1, m, gj, done, frames, loops, inDefer, g1, blocks, orc)
    requires SameTargets(loops, g0, g1)
    ensures Tracks(r, fuel0, e, c0, total, gj, done, frames, loops, inDefer, g0, blocks, orc)
  {
    total := n + m;
    RunAdd(blocks, orc, c0, n, m);
  }

  lemma {:induction false} EmitBodiesConcat(a: seq<Body>, b: seq<Body>, g: Gen)
    ensures EmitBodies(a + b, g) == EmitBodies(b, EmitBodies(a, g))
    decreases |a|
  {
    if a == [] {
      assert a + b == b;
    } else {
      assert (a + b)[0] == a[0] && (a + b)[1..] == a[1..] + b;
      EmitBodiesConcat(a[1..], b, EmitBody(a[0], [], [], g).g);
    }
  }

  // ---------- defers ----------

  /** A run registers the defers of the list in order; a run to the end registers them all. */
  lemma {:induction false} DefersHeld(ss: seq<Stmt>, frames: seq<Frame>, orc: Oracle, h: History, fuel: nat)
    requires frames != []
    ensures var p := ExecStmts(ss, frames, orc, h, fuel);
      && p.defers <= frames[0].defers + Registered(ss)
      && (p.r.out == Normal ==> p.defers == frames[0].defers + Registered(ss))
    decreases ss
  {
    if ss != [] {
      match ss[0]
      case Defer(body) =>
        DefersHeld(ss[1..], Hold(frames, body), orc, h, fuel);
        Associate(frames[0].defers, [body], Registered(ss[1..]));
      case Return(_, _) =>
      case Control(_, _, _) =>
      case _ =>
        var r := ExecStmt(ss[0], frames, orc, h, fuel);
        DefersHeld(ss[1..], frames, orc, r.h, r.fuel);
    }
  }

  lemma {:induction false} RegisteredReplayable(ss: seq<Stmt>, loops: seq<Loop>, inDefer: bool)
    requires ConfinedStmts(ss, loops, inDefer) && DistinctStmts(ss)
    ensures forall d :: d in Registered(ss) ==> Replayable(d)
  {
    if ss != [] {
      RegisteredReplayable(ss[1..], loops, inDefer);
    }
  }

  lemma {:induction false} BodiesIdsWithin(a: seq<Body>, b: seq<Body>)
    requires forall d :: d in a ==> d in b
    ensures BodiesIds(a) <= BodiesIds(b)
  {
    if a != [] {
      BodiesIdsContain(b, a[0]);
      BodiesIdsWithin(a[1..], b);
    }
  }

  lemma ReplayReady(d: Body, g: Gen)
    requires Replayable(d) && g.Settled()
    ensures Ready(StmtsIds(d.stmts), [Frame(d.id, [])], [], g)
  {
    var frames := [Frame(d.id, [])];
    assert frames[1..] == [];
    assert HeldIds(frames) == {};
  }

  lemma {:induction false} SimBodies(ds: seq<Body>, g: Gen, blocks: seq<Block>, orc: Oracle, h: History, fuel: nat)
    returns (n: nat)
    requires g.Settled() && Within(EmitBodies(ds, g), blocks)
    requires forall d :: d in ds ==> Replayable(d)
    ensures var r := ExecBodies(ds, orc, h, fuel);
      !r.out.Jumped? &&
      Tracks(r, fuel, Emitted(EmitBodies(ds, g), true), Here(g, h), n, g, None, [], [], true, g, blocks, orc)
    decreases fuel, BodiesWeight(ds), 1
  {
    if ds == [] {
      n := 0;
    } else {
      var e := EmitBody(ds[0], [], [], g);
      EmitBodyGrows(ds[0], [], [], g);
      EmitBodiesGrows(ds[1..], e.g);
      WithinGrows(e.g, EmitBodies(ds, g), BodiesIds(ds[1..]), blocks);
      assert ds[0] in ds;
      ReplayReady(ds[0], g);
      assert [Frame(ds[0].id, [])] + [] == [Frame(ds[0].id, [])];
      var gj;
      n, gj := SimBody(ds[0], [], [], true, g, blocks, orc, h, fuel);
      var r := ExecBody(ds[0], [], orc, h, fuel);
      if r.out == Normal {
        var m := SimBodies(ds[1..], e.g, blocks, orc, r.h, r.fuel);
        RunAdd(blocks, orc, Here(g, h), n, m);
        n := n + m;
      }
    }
  }

  /** A body, entered at `g`. The enclosing bodies are `frames`; if the body is a loop's, that loop
      is the last of `loops`. */
  lemma {:induction false} SimBody(b: Body, frames: seq<Frame>, loops: seq<Loop>, inDefer: bool, g: Gen,
                                   blocks: seq<Block>, orc: Oracle, h: History, fuel: nat)
    returns (n: nat, gj: Gen)
    requires Ready(StmtsIds(b.stmts), [Frame(b.id, [])] + frames, loops, g)
    requires ConfinedBody(b, loops, inDefer) && DistinctBody(b)
    requires Within(EmitBody(b, frames, loops, g).g, blocks)
    ensures Tracks(ExecBody(b, frames, orc, h, fuel), fuel, EmitBody(b, frames, loops, g), Here(g, h), n, gj,
                   Some(b.id), frames, loops, inDefer, g, blocks, orc)
    decreases fuel, FramesWeight(frames) + BodyWeight(b), 0
  {
    var inner := [Frame(b.id, [])] + frames;
    var e := EmitStmts(b.stmts, inner, loops, g);
    EmitStmtsGrows(b.stmts, inner, loops, g);
    if e.open {
      EmitBodiesGrows(Registered(b.stmts), e.g);
      WithinGrows(e.g, EmitBodies(Registered(b.stmts), e.g), BodiesIds(Registered(b.stmts)), blocks);
    }
    n, gj := SimStmts(b.stmts, inner, loops, inDefer, g, blocks, orc, h, fuel);
    var p := ExecStmts(b.stmts, inner, orc, h, fuel);
    assert [Frame(inner[0].body, p.defers)] + inner[1..] == [Frame(b.id, p.defers)] + frames;
    BodyDefers(b.stmts, inner, loops, inDefer, orc, h, fuel);
    n, gj := SimUnwind(b.id, Registered(b.stmts), p, fuel, e, Here(g, h), n, gj, frames, loops, inDefer, g, blocks, orc);
  }

  /** The defers a run of a whole body has registered may be replayed, and share no loop with the
      loops around the body. */
  lemma BodyDefers(ss: seq<Stmt>, inner: seq<Frame>, loops: seq<Loop>, inDefer: bool, orc: Oracle, h: History, fuel: nat)
    requires inner != [] && inner[0].defers == [] && ConfinedStmts(ss, loops, inDefer) && DistinctStmts(ss)
    requires StmtsIds(ss) !! LoopIds(loops)
    ensures var p := ExecStmts(ss, inner, orc, h, fuel);
      && (p.r.out == Normal ==> p.defers == Registered(ss))
      && (forall d :: d in p.defers ==> Replayable(d))
      && BodiesIds(p.defers) !! LoopIds(loops)
  {
    var p := ExecStmts(ss, inner, orc, h, fuel);
    DefersHeld(ss, inner, orc, h, fuel);
    assert inner[0].defers + Registered(ss) == Registered(ss);
    RegisteredReplayable(ss, loops, inDefer);
    RegisteredIds(ss);
    BodiesIdsWithin(p.defers, Registered(ss));
  }

  /** A body's statements have ended as `p`; now its own defers run, in the order that the way of
      leaving asks for. */
  lemma {:induction false} SimUnwind(id: nat, registered: seq<Body>, p: Partial, fuel: nat, e: Emitted, start: Config,
                                     n0: nat, gj0: Gen, frames: seq<Frame>, loops: seq<Loop>, inDefer: bool, g: Gen,
                                     blocks: seq<Block>, orc: Oracle)
    returns (n: nat, gj: Gen)
    requires Tracks(p.r, fuel, e, start, n0, gj0, None, [Frame(id, p.defers)] + frames, loops, inDefer, g, blocks, orc)
    requires e.g.Settled() && (e.open ==> Within(EmitBodies(registered, e.g), blocks))
    requires p.r.out == Normal ==> p.defers == registered
    requires forall d :: d in p.defers ==> Replayable(d)
    requires BodiesIds(p.defers) !! LoopIds(loops) && SameTargets(loops, g, g)
    ensures Tracks(Unwind(p, orc), fuel, if e.open then Emitted(EmitBodies(registered, e.g), true) else e, start, n, gj,
                   Some(id), frames, loops, inDefer, g, blocks, orc)
    decreases p.r.fuel, BodiesWeight(p.defers), 3
  {
    n, gj := n0, gj0;
    match p.r.out
    case OutOfFuel =>
    case Normal =>
      var m := SimBodies(registered, e.g, blocks, orc, p.r.h, p.r.fuel);
      RunAdd(blocks, orc, start, n0, m);
      n := n0 + m;
    case Jumped(_, j, _) =>
      var goal := GoalOf(j, loops);
      var top := Reversed(p.defers);
      n, gj := SimUnwindJump(top, Rest(Some(id), frames, LimitOf(goal)), j, goal, gj0, p, fuel, start, n0, loops, g, blocks, orc)
      by {
        assert ([Frame(id, p.defers)] + frames)[1..] == frames;
        assert DefersUpTo([Frame(id, p.defers)] + frames, LimitOf(goal)) == top + Rest(Some(id), frames, LimitOf(goal));
        forall d | d in top
          ensures Replayable(d)
        {
          ReversedMembers(p.defers, d);
        }
        ReversedIds(p.defers);
      }
  }

  lemma {:induction false} SimUnwindJump(top: seq<Body>, rest: seq<Body>, j: Jump, goal: Goal, gj0: Gen, p: Partial,
                                         fuel: nat, start: Config, n0: nat, loops: seq<Loop>, g: Gen,
                                         blocks: seq<Block>, orc: Oracle)
    returns (n: nat, gj: Gen)
    requires Run(blocks, orc, start, n0) == Here(gj0, p.r.h) && n0 + p.r.fuel >= fuel
    requires Pending(j, goal, top + rest, loops, g, gj0, blocks)
    requires BodiesWeight(top) == BodiesWeight(p.defers) && forall d :: d in top ==> Replayable(d)
    requires BodiesIds(top) !! LoopIds(loops)
    ensures var q := ExecBodies(top, orc, p.r.h, p.r.fuel);
      match q.out
      case OutOfFuel => n >= fuel && Run(blocks, orc, start, n).At? && Run(blocks, orc, start, n).h == q.h
      case Normal =>
        n + q.fuel >= fuel && Run(blocks, orc, start, n) == Here(gj, q.h) && Pending(j, goal, rest, loops, g, gj, blocks)
      case Jumped(_, _, _) => false
    decreases p.r.fuel, BodiesWeight(p.defers), 2
  {
    EmitBodiesConcat(top, rest, gj0);
    gj := EmitBodies(top, gj0);
    EmitBodiesGrows(top, gj0);
    EmitJumpGrows(j, goal, rest, gj);
    WithinGrows(gj, EmitJump(j, goal, rest, gj), BodiesIds(rest), blocks);
    var m := SimBodies(top, gj0, blocks, orc, p.r.h, p.r.fuel);
    RunAdd(blocks, orc, start, n0, m);
    n := n0 + m;
    assert SameTargets(loops, gj0, gj0);
    TargetsKept(BodiesIds(top), loops, gj0, gj);
    TargetsTrans(loops, g, gj0, gj);
  }

  // ---------- statements ----------

  lemma ReadyAfter(s: Stmt, rest: seq<Stmt>, frames: seq<Frame>, loops: seq<Loop>, inDefer: bool, g: Gen, g1: Gen)
    requires frames != [] && Ready(StmtsIds([s] + rest), frames, loops, g)
    requires ConfinedStmt(s, loops, inDefer) && DistinctStmts([s] + rest)
    requires g1.Settled() && Grows(g, g1, StmtIds(s) + HeldIds(frames))
    ensures Ready(StmtsIds(rest), StepFrames(s, frames), loops, g1)
    ensures SameTargets(loops, g, g1)
  {
    assert ([s] + rest)[1..] == rest;
    assert StmtsIds([s] + rest) == StmtIds(s) + StmtsIds(rest);
    var frames1 := StepFrames(s, frames);
    StepFramesIds(s, frames);
    TargetsKept(StmtIds(s) + HeldIds(frames), loops, g, g1);
    assert StmtIds(s) !! StmtsIds(rest);
    forall f, d | f in frames1 && d in f.defers
      ensures Replayable(d)
    {
      if f !in frames {
        assert f == frames1[0];
        assert frames[0] in frames;
      }
    }
  }

  lemma {:induction false} SimStmts(ss: seq<Stmt>, frames: seq<Frame>, loops: seq<Loop>, inDefer: bool, g: Gen,
    blocks: seq<Block>, orc: Oracle, h: History, fuel: nat)
    returns (n: nat, gj: Gen)
    requires frames != [] && Ready(StmtsIds(ss), frames, loops, g)
    requires ConfinedStmts(ss, loops, inDefer) && DistinctStmts(ss)
    requires Within(EmitStmts(ss, frames, loops, g).g, blocks)
    ensures var p := ExecStmts(ss, frames, orc, h, fuel);
      Tracks(p.r, fuel, EmitStmts(ss, frames, loops, g), Here(g, h), n, gj, None,
             [Frame(frames[0].body, p.defers)] + frames[1..], loops, inDefer, g, blocks, orc)
    decreases fuel, FramesWeight(frames) + StmtsWeight(ss), 3
  {
    n, gj := 0, g;
    if ss != [] {
      match ss[0]
      case Return(_, _) => SimJump(ss, frames, loops, inDefer, g, blocks, orc, h, fuel);
      case Control(_, _, _) => SimJump(ss, frames, loops, inDefer, g, blocks, orc, h, fuel);
      case Defer(_) => n, gj := SimDefer(ss, frames, loops, inDefer, g, blocks, orc, h, fuel);
      case _ => n, gj := SimSequence(ss, frames, loops, inDefer, g, blocks, orc, h, fuel);
    }
  }

  lemma SimJump(ss: seq<Stmt>, frames: seq<Frame>, loops: seq<Loop>, inDefer: bool, g: Gen,
    blocks: seq<Block>, orc: Oracle, h: History, fuel: nat)
    requires frames != [] && Ready(StmtsIds(ss), frames, loops, g)
    requires ConfinedStmts(ss, loops, inDefer) && DistinctStmts(ss)
    requires Within(EmitStmts(ss, frames, loops, g).g, blocks)
    requires ss != [] && (ss[0].Return? || ss[0].Control?)
    ensures Tracks(ExecStmts(ss, frames, orc, h, fuel).r, fuel, EmitStmts(ss, frames, loops, g), Here(g, h), 0, g, None,
                   frames, loops, inDefer, g, blocks, orc)
    ensures [Frame(frames[0].body, ExecStmts(ss, frames, orc, h, fuel).defers)] + frames[1..] == frames
  {
  }

  lemma {:induction false} SimDefer(ss: seq<Stmt>, frames: seq<Frame>, loops: seq<Loop>, inDefer: bool, g: Gen,
    blocks: seq<Block>, orc: Oracle, h: History, fuel: nat)
    returns (n: nat, gj: Gen)
    requires frames != [] && Ready(StmtsIds(ss), frames, loops, g)
    requires ConfinedStmts(ss, loops, inDefer) && DistinctStmts(ss)
    requires Within(EmitStmts(ss, frames, loops, g).g, blocks)
    requires ss != [] && ss[0].Defer?
    ensures var p := ExecStmts(ss, frames, orc, h, fuel);
      Tracks(p.r, fuel, EmitStmts(ss, frames, loops, g), Here(g, h), n, gj, None,
             [Frame(frames[0].body, p.defers)] + frames[1..], loops, inDefer, g, blocks, orc)
    decreases fuel, FramesWeight(frames) + StmtsWeight(ss), 2
  {
    var frames1 := Hold(frames, ss[0].body);
    assert StmtWeight(ss[0]) == 1 + BodyWeight(ss[0].body);
    assert [ss[0]] + ss[1..] == ss;
    GrowsSelf(g, StmtIds(ss[0]) + HeldIds(frames));
    ReadyAfter(ss[0], ss[1..], frames, loops, inDefer, g, g);
    assert frames1[1..] == frames[1..];
    n, gj := SimStmts(ss[1..], frames1, loops, inDefer, g, blocks, orc, h, fuel);
  }

  /** A statement that is neither a jump nor a defer, and the rest of the list. */
  lemma {:induction false} SimSequence(ss: seq<Stmt>, frames: seq<Frame>, loops: seq<Loop>, inDefer: bool, g: Gen,
    blocks: seq<Block>, orc: Oracle, h: History, fuel: nat)
    returns (n: nat, gj: Gen)
    requires frames != [] && Ready(StmtsIds(ss), frames, loops, g)
    requires ConfinedStmts(ss, loops, inDefer) && DistinctStmts(ss)
    requires Within(EmitStmts(ss, frames, loops, g).g, blocks)
    requires ss != [] && !ss[0].Return? && !ss[0].Control? && !ss[0].Defer?
    ensures var p := ExecStmts(ss, frames, orc, h, fuel);
      Tracks(p.r, fuel, EmitStmts(ss, frames, loops, g), Here(g, h), n, gj, None,
             [Frame(frames[0].body, p.defers)] + frames[1..], loops, inDefer, g, blocks, orc)
    decreases fuel, FramesWeight(frames) + StmtsWeight(ss), 2
  {
    var g1 := StepStmt(ss[0], frames, loops, g);
    var e := EmitStmts(ss[1..], frames, loops, g1);
    SequenceParts(ss, frames, loops, inDefer, g, blocks);
    n, gj := SimStmt(ss[0], frames, loops, inDefer, g, blocks, orc, h, fuel);
    var r := ExecStmt(ss[0], frames, orc, h, fuel);
    ExecSequence(ss, frames, orc, h, fuel);
    if r.out == Normal {
      var m;
      m, gj := SimStmts(ss[1..], frames, loops, inDefer, g1, blocks, orc, r.h, r.fuel);
      var p := ExecStmts(ss[1..], frames, orc, r.h, r.fuel);
      n := TracksAfter(Here(g, h), n, Here(g1, r.h), p.r, fuel, r.fuel, e, m, gj, None,
                       [Frame(frames[0].body, p.defers)] + frames[1..], loops, inDefer, g, g1, blocks, orc);
    } else {
      assert [Frame(frames[0].body, frames[0].defers)] + frames[1..] == frames;
    }
  }

  lemma ExecSequence(ss: seq<Stmt>, frames: seq<Frame>, orc: Oracle, h: History, fuel: nat)
    requires frames != [] && ss != [] && !ss[0].Return? && !ss[0].Control? && !ss[0].Defer?
    ensures var r := ExecStmt(ss[0], frames, orc, h, fuel);
      ExecStmts(ss, frames, orc, h, fuel) ==
        if r.out != Normal then Partial(r, frames[0].defers) else ExecStmts(ss[1..], frames, orc, r.h, r.fuel)
  {
  }

  lemma SequenceParts(ss: seq<Stmt>, frames: seq<Frame>, loops: seq<Loop>, inDefer: bool, g: Gen, blocks: seq<Block>)
    requires frames != [] && Ready(StmtsIds(ss), frames, loops, g)
    requires ConfinedStmts(ss, loops, inDefer) && DistinctStmts(ss)
    requires Within(EmitStmts(ss, frames, loops, g).g, blocks)
    requires ss != [] && !ss[0].Return? && !ss[0].Control? && !ss[0].Defer?
    ensures var g1 := StepStmt(ss[0], frames, loops, g);
      && Ready(StmtIds(ss[0]), frames, loops, g) && Ready(StmtsIds(ss[1..]), frames, loops, g1)
      && SameTargets(loops, g, g1) && Within(g1, blocks)
      && EmitStmts(ss, frames, loops, g) == EmitStmts(ss[1..], frames, loops, g1)
    ensures ConfinedStmt(ss[0], loops, inDefer) && DistinctStmt(ss[0])
    ensures ConfinedStmts(ss[1..], loops, inDefer) && DistinctStmts(ss[1..])
    ensures StmtsWeight(ss) == StmtWeight(ss[0]) + StmtsWeight(ss[1..])
  {
    var g1 := StepStmt(ss[0], frames, loops, g);
    EmitStmtsUnfold(ss, frames, loops, g);
    StepStmtGrows(ss[0], frames, loops, g);
    assert [ss[0]] + ss[1..] == ss;
    ReadyAfter(ss[0], ss[1..], frames, loops, inDefer, g, g1);
    EmitStmtsGrows(ss[1..], frames, loops, g1);
    WithinGrows(g1, EmitStmts(ss[1..], frames, loops, g1).g, StmtsIds(ss[1..]) + HeldIds(frames), blocks);
  }

  lemma {:induction false} SimStmt(s: Stmt, frames: seq<Frame>, loops: seq<Loop>, inDefer: bool, g: Gen,
                                   blocks: seq<Block>, orc: Oracle, h: History, fuel: nat)
    returns (n: nat, gj: Gen)
    requires frames != [] && Ready(StmtIds(s), frames, loops, g)
    requires ConfinedStmt(s, loops, inDefer) && DistinctStmt(s)
    requires !s.Return? && !s.Control? && !s.Defer?
    requires Within(StepStmt(s, frames, loops, g), blocks)
    ensures Tracks(ExecStmt(s, frames, orc, h, fuel), fuel, Emitted(StepStmt(s, frames, loops, g), true),
                   Here(g, h), n, gj, None, frames, loops, inDefer, g, blocks, orc)
    decreases fuel, FramesWeight(frames) + StmtWeight(s), 1
  {
    match s
    case Eval(ps) =>
      n := SimPieces(ps, g, blocks, orc, h);
      gj := g;
    case While(id, name, guard, body) =>
      n, gj := SimWhile(id, name, guard, body, frames, loops, inDefer, g, blocks, orc, h, fuel);
    case If(main, elseIfs, otherwise) =>
      n, gj := SimIf(main, elseIfs, otherwise, frames, loops, inDefer, g, blocks, orc, h, fuel);
  }

  // ---------- loops ----------

  /** One evaluation of a loop's condition, from the start of its block. */
  lemma SimLoopTest(id: nat, guard: Operand, g: Gen, blocks: seq<Block>, orc: Oracle, h: History) returns (n: nat)
    requires g.Settled() && Within(OpenWhile(id, guard, g), blocks)
    ensures n >= 1
    ensures var h1 := AfterPieces(guard.pieces, h); var answer := orc(h1, guard.result);
      Run(blocks, orc, At(|g.blocks|, 0, h), n) ==
        At(if answer then |g.blocks| + 1 else |g.blocks| + 2, 0, h1 + [Tested(guard.result, answer)])
  {
    var b := |g.blocks|;
    var g2 := AppendThree(g).(targets := g.targets[id := LoopBlocks(b, b + 2)]);
    var g3 := MoveTo(Append(g2, Br(b)), b);
    WhileHeadGrows(g, g2, g3, b, id);
    var g4 := EmitPieces(guard.pieces, g3);
    EmitPiecesGrows(guard.pieces, g3);
    var g5 := Append(g4, CondBr(guard.result, b + 1, b + 2));
    assert OpenWhile(id, guard, g) == MoveTo(g5, b + 1);
    NextInstr(g4, CondBr(guard.result, b + 1, b + 2), blocks);
    assert g3.blocks[b] == [];
    var m := SimPieces(guard.pieces, g3, blocks, orc, h);
    var c := At(b, 0, h);
    assert c == Here(g3, h);
    RunAdd(blocks, orc, c, m, 1);
    RunOne(blocks, orc, Run(blocks, orc, c, m));
    n := m + 1;
  }

  lemma EnterLoop(id: nat, guard: Operand, g: Gen, blocks: seq<Block>, orc: Oracle, h: History)
    requires g.Settled() && Within(OpenWhile(id, guard, g), blocks)
    ensures Run(blocks, orc, Here(g, h), 1) == At(|g.blocks|, 0, h)
  {
    var b := |g.blocks|;
    var g2 := AppendThree(g).(targets := g.targets[id := LoopBlocks(b, b + 2)]);
    var g3 := Append(g2, Br(b));
    WhileHeadGrows(g, g2, MoveTo(g3, b), b, id);
    var g4 := EmitPieces(guard.pieces, MoveTo(g3, b));
    EmitPiecesGrows(guard.pieces, MoveTo(g3, b));
    AppendGrows(g4, CondBr(guard.result, b + 1, b + 2));
    assert OpenWhile(id, guard, g) == MoveTo(Append(g4, CondBr(guard.result, b + 1, b + 2)), b + 1);
    WithinGrows(g4, Append(g4, CondBr(guard.result, b + 1, b + 2)), {}, blocks);
    WithinGrows(MoveTo(g3, b), g4, {}, blocks);
    NextInstr(g2, Br(b), blocks);
    RunOne(blocks, orc, Here(g, h));
  }

  /** After the jump of open code to `target`. */
  lemma FollowClose(e: Emitted, target: nat, blocks: seq<Block>, orc: Oracle, h: History)
    requires e.open && Within(CloseWith(e, target), blocks)
    ensures Run(blocks, orc, Here(e.g, h), 1) == At(target, 0, h)
  {
    NextInstr(e.g, Br(target), blocks);
    RunOne(blocks, orc, Here(e.g, h));
  }

  /** A caught jump that has run all its defers branches to its loop's block. */
  lemma FollowCaught(j: Jump, l: Loop, t: LoopBlocks, gj: Gen, blocks: seq<Block>, orc: Oracle, h: History)
    requires j.Leave? && l.id in gj.targets && gj.targets[l.id] == t
    requires Within(EmitJump(j, ToLoop(l), [], gj), blocks)
    ensures Run(blocks, orc, Here(gj, h), 1) == At(if j.isBreak then t.breakBlock else t.continueBlock, 0, h)
  {
    NextInstr(gj, Br(if j.isBreak then t.breakBlock else t.continueBlock), blocks);
    RunOne(blocks, orc, Here(gj, h));
  }

  /** The state in which a loop's body is lowered. */
  lemma LoopBodyReady(id: nat, name: Option<string>, guard: Operand, body: Body, frames: seq<Frame>, loops: seq<Loop>,
                      g: Gen)
    requires Ready({id} + BodyIds(body), frames, loops, g)
    requires name.Some? ==> FindLoop(loops, name).None?
    requires id !in BodyIds(body) && DistinctBody(body)
    ensures Ready(StmtsIds(body.stmts), [Frame(body.id, [])] + frames, loops + [Loop(id, name, body.id)],
                  OpenWhile(id, guard, g))
    ensures SameTargets(loops, g, OpenWhile(id, guard, g))
  {
    var l := Loop(id, name, body.id);
    var g1 := OpenWhile(id, guard, g);
    var inner := [Frame(body.id, [])] + frames;
    OpenWhileGrows(id, guard, g);
    TargetsKept({id}, loops, g, g1);
    NamesDistinctPush(loops, l);
    InnerFrames(body.id, frames);
    assert l in loops + [l];
    assert LoopIds(loops + [l]) == LoopIds(loops) + {id};
  }

  lemma InnerFrames(id: nat, frames: seq<Frame>)
    ensures var inner := [Frame(id, [])] + frames;
      && FrameBodies(inner) == {id} + FrameBodies(frames) && HeldIds(inner) == HeldIds(frames)
      && (forall f, d :: f in inner && d in f.defers ==> f in frames)
  {
    var inner := [Frame(id, [])] + frames;
    assert inner[1..] == frames;
    assert inner[0] in inner;
    assert forall f :: f in inner ==> f == inner[0] || f in frames;
    assert forall f :: f in frames ==> f in inner;
  }

  /** A jump out of a loop: it was not addressed to the loop, so it finds the same outer loop. */
  lemma JumpOutward(j: Jump, loops: seq<Loop>, l: Loop, inDefer: bool, frames: seq<Frame>)
    requires Context(frames, loops) && l.body !in FrameBodies(frames)
    requires l.name.Some? ==> FindLoop(loops, l.name).None?
    requires JumpFits(j, loops + [l], inDefer) && !Catches(l.name, j)
    ensures JumpFits(j, loops, inDefer) && GoalOf(j, loops) == GoalOf(j, loops + [l])
    ensures Rest(Some(l.body), frames, LimitOf(GoalOf(j, loops))) == Rest(None, frames, LimitOf(GoalOf(j, loops)))
  {
    if j.Leave? {
      FindLoopPush(loops, l, j.name);
      FindLoopSound(loops, j.name);
    }
  }

  lemma WhileParts(id: nat, name: Option<string>, guard: Operand, body: Body, frames: seq<Frame>, loops: seq<Loop>,
                   g: Gen, blocks: seq<Block>)
    requires g.Settled() && Within(EmitWhile(id, name, guard, body, frames, loops, g), blocks)
    ensures Within(OpenWhile(id, guard, g), blocks)
    ensures var e := EmitBody(body, frames, loops + [Loop(id, name, body.id)], OpenWhile(id, guard, g));
      Within(e.g, blocks) && Within(CloseWith(e, |g.blocks|), blocks)
  {
    var g1 := OpenWhile(id, guard, g);
    OpenWhileGrows(id, guard, g);
    var e := EmitBody(body, frames, loops + [Loop(id, name, body.id)], g1);
    EmitBodyGrows(body, frames, loops + [Loop(id, name, body.id)], g1);
    CloseWithGrows(e, |g.blocks|);
    WithinGrows(e.g, CloseWith(e, |g.blocks|), {}, blocks);
    WithinGrows(g1, e.g, BodyIds(body) + HeldIds(frames), blocks);
  }

  lemma {:induction false} SimWhile(id: nat, name: Option<string>, guard: Operand, body: Body, frames: seq<Frame>,
                                    loops: seq<Loop>, inDefer: bool, g: Gen, blocks: seq<Block>, orc: Oracle,
                                    h: History, fuel: nat)
    returns (n: nat, gj: Gen)
    requires Ready({id} + BodyIds(body), frames, loops, g)
    requires name.Some? ==> FindLoop(loops, name).None?
    requires ConfinedBody(body, loops + [Loop(id, name, body.id)], inDefer)
    requires id !in BodyIds(body) && DistinctBody(body)
    requires Within(EmitWhile(id, name, guard, body, frames, loops, g), blocks)
    ensures Tracks(ExecLoop(name, guard, body, frames, orc, h, fuel), fuel,
                   Emitted(EmitWhile(id, name, guard, body, frames, loops, g), true), Here(g, h), n, gj,
                   None, frames, loops, inDefer, g, blocks, orc)
    decreases fuel, FramesWeight(frames) + BodyWeight(body) + 1, 1
  {
    WhileParts(id, name, guard, body, frames, loops, g, blocks);
    EnterLoop(id, guard, g, blocks, orc, h);
    n, gj := SimLoop(id, name, guard, body, frames, loops, inDefer, g, blocks, orc, h, fuel);
    n := TracksAfter(Here(g, h), 1, At(|g.blocks|, 0, h), ExecLoop(name, guard, body, frames, orc, h, fuel), fuel, fuel,
                     Emitted(EmitWhile(id, name, guard, body, frames, loops, g), true), n, gj, None, frames, loops, inDefer,
                     g, g, blocks, orc);
  }

  /** A loop from the start of its condition's block, for any number of rounds. */
  lemma {:induction false} SimLoop(id: nat, name: Option<string>, guard: Operand, body: Body, frames: seq<Frame>,
                                   loops: seq<Loop>, inDefer: bool, g: Gen, blocks: seq<Block>, orc: Oracle,
                                   h: History, fuel: nat)
    returns (n: nat, gj: Gen)
    requires Ready({id} + BodyIds(body), frames, loops, g)
    requires name.Some? ==> FindLoop(loops, name).None?
    requires ConfinedBody(body, loops + [Loop(id, name, body.id)], inDefer)
    requires id !in BodyIds(body) && DistinctBody(body)
    requires Within(EmitWhile(id, name, guard, body, frames, loops, g), blocks)
    ensures Tracks(ExecLoop(name, guard, body, frames, orc, h, fuel), fuel,
                   Emitted(EmitWhile(id, name, guard, body, frames, loops, g), true), At(|g.blocks|, 0, h), n, gj,
                   None, frames, loops, inDefer, g, blocks, orc)
    decreases fuel, FramesWeight(frames) + BodyWeight(body) + 1, 0
  {
    n, gj := 0, g;
    if fuel > 0 {
      var fin := Emitted(EmitWhile(id, name, guard, body, frames, loops, g), true);
      WhileParts(id, name, guard, body, frames, loops, g, blocks);
      var h1 := AfterPieces(guard.pieces, h);
      var answer := orc(h1, guard.result);
      var h2 := h1 + [Tested(guard.result, answer)];
      n := SimLoopTest(id, guard, g, blocks, orc, h);
      if answer {
        n, gj := SimFirstRound(id, name, guard, body, frames, loops, inDefer, g, blocks, orc, h, h2, fuel, n);
      } else {
        EmitWhileGrows(id, name, guard, body, frames, loops, g);
      }
    }
  }

  /** `n0` steps have tested the condition. */
  lemma {:induction false} SimFirstRound(id: nat, name: Option<string>, guard: Operand, body: Body, frames: seq<Frame>,
                                         loops: seq<Loop>, inDefer: bool, g: Gen, blocks: seq<Block>, orc: Oracle,
                                         h: History, h2: History, fuel: nat, n0: nat)
    returns (n: nat, gj: Gen)
    requires Ready({id} + BodyIds(body), frames, loops, g) && fuel > 0 && n0 > 0
    requires name.Some? ==> FindLoop(loops, name).None?
    requires ConfinedBody(body, loops + [Loop(id, name, body.id)], inDefer)
    requires id !in BodyIds(body) && DistinctBody(body)
    requires Within(EmitWhile(id, name, guard, body, frames, loops, g), blocks)
    requires Run(blocks, orc, At(|g.blocks|, 0, h), n0) == At(|g.blocks| + 1, 0, h2)
    ensures Tracks(ExecNext(name, guard, body, frames, orc, ExecBody(body, frames, orc, h2, fuel - 1)), fuel,
                   Emitted(EmitWhile(id, name, guard, body, frames, loops, g), true), At(|g.blocks|, 0, h), n, gj,
                   None, frames, loops, inDefer, g, blocks, orc)
    decreases fuel - 1, FramesWeight(frames) + BodyWeight(body) + 1, 3
  {
    var m;
    m, gj := SimRound(id, name, guard, body, frames, loops, inDefer, g, blocks, orc, h2, fuel - 1);
    RoundStart(id, guard, g, h2);
    n := TracksAfter(At(|g.blocks|, 0, h), n0, Here(OpenWhile(id, guard, g), h2),
                     ExecNext(name, guard, body, frames, orc, ExecBody(body, frames, orc, h2, fuel - 1)), fuel, fuel - 1,
                     Emitted(EmitWhile(id, name, guard, body, frames, loops, g), true), m, gj, None, frames, loops, inDefer,
                     g, g, blocks, orc);
  }

  lemma RoundStart(id: nat, guard: Operand, g: Gen, h: History)
    requires g.Settled()
    ensures Here(OpenWhile(id, guard, g), h) == At(|g.blocks| + 1, 0, h)
  {
    OpenWhileGrows(id, guard, g);
  }

  /** One round: the body, and what follows it. */
  lemma {:induction false} SimRound(id: nat, name: Option<string>, guard: Operand, body: Body, frames: seq<Frame>,
                                    loops: seq<Loop>, inDefer: bool, g: Gen, blocks: seq<Block>, orc: Oracle,
                                    h: History, fuel: nat)
    returns (n: nat, gj: Gen)
    requires Ready({id} + BodyIds(body), frames, loops, g)
    requires name.Some? ==> FindLoop(loops, name).None?
    requires ConfinedBody(body, loops + [Loop(id, name, body.id)], inDefer)
    requires id !in BodyIds(body) && DistinctBody(body)
    requires Within(EmitWhile(id, name, guard, body, frames, loops, g), blocks)
    ensures Tracks(ExecNext(name, guard, body, frames, orc, ExecBody(body, frames, orc, h, fuel)), fuel,
                   Emitted(EmitWhile(id, name, guard, body, frames, loops, g), true), Here(OpenWhile(id, guard, g), h), n, gj,
                   None, frames, loops, inDefer, g, blocks, orc)
    decreases fuel, FramesWeight(frames) + BodyWeight(body) + 1, 2
  {
    var l := Loop(id, name, body.id);
    WhileParts(id, name, guard, body, frames, loops, g, blocks);
    LoopBodyReady(id, name, guard, body, frames, loops, g);
    n, gj := SimBody(body, frames, loops + [l], inDefer, OpenWhile(id, guard, g), blocks, orc, h, fuel);
    n, gj := SimNext(id, name, guard, body, frames, loops, inDefer, g, blocks, orc, ExecBody(body, frames, orc, h, fuel),
                     fuel, h, n, gj);
  }

  /** The body of a loop has been matched; the loop goes round, ends, or is left by a jump. */
  lemma {:induction false} SimNext(id: nat, name: Option<string>, guard: Operand, body: Body, frames: seq<Frame>,
                                   loops: seq<Loop>, inDefer: bool, g: Gen, blocks: seq<Block>, orc: Oracle,
                                   r: Result, fuel: nat, h: History, n0: nat, gj0: Gen)
    returns (n: nat, gj: Gen)
    requires Ready({id} + BodyIds(body), frames, loops, g)
    requires name.Some? ==> FindLoop(loops, name).None?
    requires ConfinedBody(body, loops + [Loop(id, name, body.id)], inDefer)
    requires id !in BodyIds(body) && DistinctBody(body)
    requires Within(EmitWhile(id, name, guard, body, frames, loops, g), blocks)
    requires r.fuel <= fuel
    requires var l := Loop(id, name, body.id); var g1 := OpenWhile(id, guard, g);
      Tracks(r, fuel, EmitBody(body, frames, loops + [l], g1), Here(g1, h), n0, gj0, Some(body.id), frames, loops + [l],
             inDefer, g1, blocks, orc)
    ensures Tracks(ExecNext(name, guard, body, frames, orc, r), fuel,
                   Emitted(EmitWhile(id, name, guard, body, frames, loops, g), true), Here(OpenWhile(id, guard, g), h), n, gj,
                   None, frames, loops, inDefer, g, blocks, orc)
    decreases r.fuel, FramesWeight(frames) + BodyWeight(body) + 1, 1
  {
    n, gj := n0, gj0;
    var b := |g.blocks|;
    var l := Loop(id, name, body.id);
    var g1 := OpenWhile(id, guard, g);
    var start := Here(g1, h);
    if r.out == Normal || (r.out.Jumped? && Catches(name, r.out.jump)) {
      n := SimCaught(id, name, guard, body, frames, loops, inDefer, g, blocks, orc, r, fuel, h, n0, gj0);
      if r.out == Normal || !r.out.jump.isBreak {
        assert ExecNext(name, guard, body, frames, orc, r) == ExecLoop(name, guard, body, frames, orc, r.h, r.fuel);
        var m;
        m, gj := SimLoop(id, name, guard, body, frames, loops, inDefer, g, blocks, orc, r.h, r.fuel);
        n := TracksAfter(start, n, At(b, 0, r.h), ExecLoop(name, guard, body, frames, orc, r.h, r.fuel), fuel, r.fuel,
                         Emitted(EmitWhile(id, name, guard, body, frames, loops, g), true), m, gj, None, frames, loops, inDefer,
                         g, g, blocks, orc);
      } else {
        EmitWhileGrows(id, name, guard, body, frames, loops, g);
      }
    } else if r.out.Jumped? {
      SimOutward(id, name, guard, body, frames, loops, inDefer, g, blocks, orc, r, fuel, h, n0, gj0);
    }
  }

  /** A jump that this loop does not catch goes on outwards. */
  lemma SimOutward(id: nat, name: Option<string>, guard: Operand, body: Body, frames: seq<Frame>,
                   loops: seq<Loop>, inDefer: bool, g: Gen, blocks: seq<Block>, orc: Oracle,
                   r: Result, fuel: nat, h: History, n0: nat, gj0: Gen)
    requires Ready({id} + BodyIds(body), frames, loops, g)
    requires name.Some? ==> FindLoop(loops, name).None?
    requires id !in BodyIds(body) && DistinctBody(body)
    requires r.out.Jumped? && !Catches(name, r.out.jump)
    requires var l := Loop(id, name, body.id); var g1 := OpenWhile(id, guard, g);
      Tracks(r, fuel, EmitBody(body, frames, loops + [l], g1), Here(g1, h), n0, gj0, Some(body.id), frames, loops + [l],
             inDefer, g1, blocks, orc)
    ensures Tracks(r, fuel, Emitted(EmitWhile(id, name, guard, body, frames, loops, g), true), Here(OpenWhile(id, guard, g), h),
                   n0, gj0, None, frames, loops, inDefer, g, blocks, orc)
  {
    var l := Loop(id, name, body.id);
    var g1 := OpenWhile(id, guard, g);
    LoopTargets(id, guard, body, frames, loops, g);
    JumpOutward(r.out.jump, loops, l, inDefer, frames);
    PendingOutward(r.out.jump, GoalOf(r.out.jump, loops), Rest(None, frames, LimitOf(GoalOf(r.out.jump, loops))), loops, l, g, g1, gj0, blocks);
  }

  lemma LoopTargets(id: nat, guard: Operand, body: Body, frames: seq<Frame>, loops: seq<Loop>, g: Gen)
    requires Ready({id} + BodyIds(body), frames, loops, g)
    ensures SameTargets(loops, g, OpenWhile(id, guard, g))
    ensures body.id !in FrameBodies(frames)
  {
    OpenWhileGrows(id, guard, g);
    TargetsKept({id}, loops, g, OpenWhile(id, guard, g));
  }

  lemma PendingOutward(j: Jump, goal: Goal, ds: seq<Body>, loops: seq<Loop>, l: Loop, g: Gen, g1: Gen, gj: Gen, blocks: seq<Block>)
    requires Pending(j, goal, ds, loops + [l], g1, gj, blocks) && SameTargets(loops, g, g1)
    ensures Pending(j, goal, ds, loops, g, gj, blocks)
  {
    forall x | x in loops
      ensures x.id in g.targets && x.id in gj.targets && g.targets[x.id] == gj.targets[x.id]
    {
      assert x in loops + [l];
    }
  }

  /** Falling out of the body, `continue` and `break` all reach the block they should. */
  lemma SimCaught(id: nat, name: Option<string>, guard: Operand, body: Body, frames: seq<Frame>, loops: seq<Loop>,
                  inDefer: bool, g: Gen, blocks: seq<Block>, orc: Oracle, r: Result, fuel: nat, h: History, n0: nat, gj0: Gen)
    returns (n: nat)
    requires g.Settled() && (name.Some? ==> FindLoop(loops, name).None?)
    requires Within(EmitWhile(id, name, guard, body, frames, loops, g), blocks)
    requires r.out == Normal || (r.out.Jumped? && Catches(name, r.out.jump))
    requires var l := Loop(id, name, body.id); var g1 := OpenWhile(id, guard, g);
      Tracks(r, fuel, EmitBody(body, frames, loops + [l], g1), Here(g1, h), n0, gj0, Some(body.id), frames, loops + [l],
             inDefer, g1, blocks, orc)
    ensures n + r.fuel >= fuel
    ensures Run(blocks, orc, Here(OpenWhile(id, guard, g), h), n) ==
      At(if r.out == Normal || !r.out.jump.isBreak then |g.blocks| else |g.blocks| + 2, 0, r.h)
  {
    var b := |g.blocks|;
    var l := Loop(id, name, body.id);
    var g1 := OpenWhile(id, guard, g);
    if r.out == Normal {
      WhileParts(id, name, guard, body, frames, loops, g, blocks);
      FollowClose(EmitBody(body, frames, loops + [l], g1), b, blocks, orc, r.h);
    } else {
      OpenWhileGrows(id, guard, g);
      FindLoopPush(loops, l, r.out.jump.name);
      assert l in loops + [l];
      FollowCaught(r.out.jump, l, LoopBlocks(b, b + 2), gj0, blocks, orc, r.h);
    }
    RunAdd(blocks, orc, Here(g1, h), n0, 1);
    n := n0 + 1;
  }

  // ---------- branches ----------

  ghost predicate Longer(g0: Gen, g1: Gen) {
    |g0.blocks| <= |g1.blocks| && forall i :: 0 <= i < |g0.blocks| ==> g0.blocks[i] <= g1.blocks[i]
  }

  lemma WithinLonger(g0: Gen, g1: Gen, blocks: seq<Block>)
    requires Longer(g0, g1) && Within(g1, blocks)
    ensures Within(g0, blocks)
  {
    forall i | 0 <= i < |g0.blocks|
      ensures g0.blocks[i] <= blocks[i]
    {
      assert g0.blocks[i] <= g1.blocks[i] <= blocks[i];
    }
  }

  lemma LongerTrans(g0: Gen, g1: Gen, g2: Gen)
    requires Longer(g0, g1) && Longer(g1, g2)
    ensures Longer(g0, g2)
  {
    forall i | 0 <= i < |g0.blocks|
      ensures g0.blocks[i] <= g2.blocks[i]
    {
      assert g0.blocks[i] <= g1.blocks[i] <= g2.blocks[i];
    }
  }

  lemma ElseArmLonger(c: Clause, endBlock: nat, frames: seq<Frame>, loops: seq<Loop>, g: Gen)
    requires g.Settled() && endBlock < |g.blocks| && endBlock != g.definitions && endBlock != g.pos
    ensures var n := |g.blocks|; var g1 := EmitArm(c, n + 1, n, endBlock, frames, loops, AppendBlock(AppendBlock(g)));
      g1.Settled() && g1.pos == n && g1.definitions == g.definitions && g1.blocks[endBlock] == g.blocks[endBlock] && Longer(g, g1)
  {
    var n := |g.blocks|;
    var g0 := AppendBlock(AppendBlock(g));
    EmitArmGrows(c, n + 1, n, endBlock, frames, loops, g0);
    LongerTrans(g, g0, EmitArm(c, n + 1, n, endBlock, frames, loops, g0));
  }

  /** Lowering the alternatives leaves the end block as empty as it was. */
  lemma {:induction false} EmitElseLonger(cs: seq<Clause>, otherwise: Option<Body>, endBlock: nat, frames: seq<Frame>,
                                          loops: seq<Loop>, g: Gen)
    requires g.Settled() && endBlock < |g.blocks| && endBlock != g.definitions && endBlock != g.pos
    ensures var r := EmitElse(cs, otherwise, endBlock, frames, loops, g);
      r.pos == endBlock && r.blocks[endBlock] == g.blocks[endBlock] && Longer(g, r)
    decreases |cs|
  {
    if cs != [] {
      var n := |g.blocks|;
      var g1 := EmitArm(cs[0], n + 1, n, endBlock, frames, loops, AppendBlock(AppendBlock(g)));
      ElseArmLonger(cs[0], endBlock, frames, loops, g);
      EmitElseLonger(cs[1..], otherwise, endBlock, frames, loops, g1);
      LongerTrans(g, g1, EmitElse(cs[1..], otherwise, endBlock, frames, loops, g1));
    } else {
      match otherwise
      case None => AppendGrows(g, Br(endBlock));
      case Some(b) =>
        var e := EmitBody(b, frames, loops, g);
        EmitBodyGrows(b, frames, loops, g);
        CloseWithGrows(e, endBlock);
        LongerTrans(g, e.g, CloseWith(e, endBlock));
    }
  }

  /** A branch body is an ordinary body: no jump is addressed to it. */
  lemma BranchReady(b: Body, frames: seq<Frame>, loops: seq<Loop>, g: Gen)
    requires Ready(BodyIds(b), frames, loops, g) && DistinctBody(b)
    ensures Ready(StmtsIds(b.stmts), [Frame(b.id, [])] + frames, loops, g)
    ensures b.id !in FrameBodies(frames)
  {
    InnerFrames(b.id, frames);
  }

  lemma LimitInContext(j: Jump, frames: seq<Frame>, loops: seq<Loop>, inDefer: bool, id: nat)
    requires Context(frames, loops) && JumpFits(j, loops, inDefer) && id !in FrameBodies(frames)
    ensures LimitOf(GoalOf(j, loops)) != Some(id)
  {
    if j.Leave? {
      FindLoopSound(loops, j.name);
    }
  }

  /** A branch body and the jump to the end of the `if` that closes it. */
  lemma {:induction false} SimBranch(b: Body, endBlock: nat, fin: Gen, frames: seq<Frame>, loops: seq<Loop>, inDefer: bool,
                                     g0: Gen, g: Gen, blocks: seq<Block>, orc: Oracle, h: History, fuel: nat)
    returns (n: nat, gj: Gen)
    requires Ready(BodyIds(b), frames, loops, g) && SameTargets(loops, g0, g)
    requires ConfinedBody(b, loops, inDefer) && DistinctBody(b)
    requires Within(CloseWith(EmitBody(b, frames, loops, g), endBlock), blocks)
    requires fin.pos == endBlock && fin.blocks[endBlock] == []
    ensures Tracks(ExecBody(b, frames, orc, h, fuel), fuel, Emitted(fin, true), Here(g, h), n, gj, None, frames, loops,
                   inDefer, g0, blocks, orc)
    decreases fuel, FramesWeight(frames) + BodyWeight(b), 1
  {
    var e := EmitBody(b, frames, loops, g);
    EmitBodyGrows(b, frames, loops, g);
    CloseWithGrows(e, endBlock);
    WithinGrows(e.g, CloseWith(e, endBlock), {}, blocks);
    BranchReady(b, frames, loops, g);
    n, gj := SimBody(b, frames, loops, inDefer, g, blocks, orc, h, fuel);
    var r := ExecBody(b, frames, orc, h, fuel);
    match r.out
    case OutOfFuel =>
    case Normal =>
      FollowClose(e, endBlock, blocks, orc, r.h);
      RunAdd(blocks, orc, Here(g, h), n, 1);
      n := n + 1;
    case Jumped(_, j, _) =>
      LimitInContext(j, frames, loops, inDefer, b.id);
  }

  /** The test of one arm. */
  lemma SimTest(c: Operand, thenBlock: nat, elseBlock: nat, g: Gen, blocks: seq<Block>, orc: Oracle, h: History)
    returns (n: nat)
    requires g.Settled()
    requires Within(Append(EmitPieces(c.pieces, g), CondBr(c.result, thenBlock, elseBlock)), blocks)
    ensures var h1 := AfterPieces(c.pieces, h); var answer := orc(h1, c.result);
      Run(blocks, orc, Here(g, h), n) == At(if answer then thenBlock else elseBlock, 0, h1 + [Tested(c.result, answer)])
  {
    var g1 := EmitPieces(c.pieces, g);
    NextInstr(g1, CondBr(c.result, thenBlock, elseBlock), blocks);
    var m := SimPieces(c.pieces, g, blocks, orc, h);
    RunAdd(blocks, orc, Here(g, h), m, 1);
    RunOne(blocks, orc, Run(blocks, orc, Here(g, h), m));
    n := m + 1;
  }

  /** An arm and all alternatives after it: the test, then either the branch or the alternatives. */
  lemma {:induction false} SimChain(c: Clause, thenBlock: nat, elseBlock: nat, endBlock: nat, cs: seq<Clause>,
                                    otherwise: Option<Body>, frames: seq<Frame>, loops: seq<Loop>, inDefer: bool,
                                    g: Gen, fin: Gen, blocks: seq<Block>, orc: Oracle, h: History, fuel: nat)
    returns (n: nat, gj: Gen)
    requires Ready(ClauseIds(c) + ClausesIds(cs) + OtherwiseIds(otherwise), frames, loops, g)
    requires ConfinedClause(c, loops, inDefer) && DistinctClause(c)
    requires ConfinedClauses(cs, loops, inDefer) && DistinctClauses(cs)
    requires ConfinedOtherwise(otherwise, loops, inDefer) && DistinctOtherwise(otherwise)
    requires ArmBlocks(thenBlock, elseBlock, endBlock, g)
    requires Within(fin, blocks)
    requires fin == EmitElse(cs, otherwise, endBlock, frames, loops,
                             EmitArm(c, thenBlock, elseBlock, endBlock, frames, loops, g))
    ensures Tracks(ExecIf(c, cs, otherwise, frames, orc, h, fuel), fuel, Emitted(fin, true), Here(g, h), n, gj, None,
                   frames, loops, inDefer, g, blocks, orc)
    decreases fuel, FramesWeight(frames) + ClauseWeight(c) + ClausesWeight(cs) + OtherwiseWeight(otherwise), 4
  {
    var ids := ClauseIds(c) + ClausesIds(cs) + OtherwiseIds(otherwise);
    var g1 := EmitArm(c, thenBlock, elseBlock, endBlock, frames, loops, g);
    IfParts(c, thenBlock, elseBlock, endBlock, cs, otherwise, frames, loops, g, blocks);
    ArmParts(c, thenBlock, elseBlock, endBlock, frames, loops, g, blocks);
    n := SimTest(c.guard, thenBlock, elseBlock, g, blocks, orc, h);
    var h1 := AfterPieces(c.guard.pieces, h);
    var answer := orc(h1, c.guard.result);
    var h2 := h1 + [Tested(c.guard.result, answer)];
    var r := if answer then ExecBody(c.body, frames, orc, h2, fuel) else ExecElse(cs, otherwise, frames, orc, h2, fuel);
    assert ExecIf(c, cs, otherwise, frames, orc, h, fuel) == r;
    var m;
    var g2 := if answer then ArmStart(c, thenBlock, elseBlock, g) else g1;
    if answer {
      ReadySubset(ids, ClauseIds(c), frames, loops, g, g2);
      m, gj := SimBranch(c.body, endBlock, fin, frames, loops, inDefer, g2, g2, blocks, orc, h2, fuel);
    } else {
      ReadySubset(ids, ClausesIds(cs) + OtherwiseIds(otherwise), frames, loops, g, g2);
      m, gj := SimElse(cs, otherwise, endBlock, frames, loops, inDefer, g2, blocks, orc, h2, fuel);
    }
    n := TracksAfter(Here(g, h), n, Here(g2, h2), r, fuel, fuel, Emitted(fin, true), m, gj, None, frames, loops, inDefer, g,
                     g2, blocks, orc);
  }

  /** The blocks of an arm are three fresh ones, besides the builder's and the one for slots. */
  predicate ArmBlocks(thenBlock: nat, elseBlock: nat, endBlock: nat, g: Gen) {
    && thenBlock < |g.blocks| && elseBlock < |g.blocks| && endBlock < |g.blocks|
    && thenBlock != g.definitions && elseBlock != g.definitions && endBlock != g.definitions
    && thenBlock != elseBlock && thenBlock != endBlock && elseBlock != endBlock
    && thenBlock != g.pos && elseBlock != g.pos && endBlock != g.pos
    && g.blocks[thenBlock] == [] && g.blocks[elseBlock] == [] && g.blocks[endBlock] == []
  }

  /** The state at the start of an arm's branch. */
  function ArmStart(c: Clause, thenBlock: nat, elseBlock: nat, g: Gen): Gen
    requires thenBlock < |g.blocks|
  {
    MoveTo(Append(EmitPieces(c.guard.pieces, g), CondBr(c.guard.result, thenBlock, elseBlock)), thenBlock)
  }

  lemma ArmParts(c: Clause, thenBlock: nat, elseBlock: nat, endBlock: nat, frames: seq<Frame>, loops: seq<Loop>,
                 g: Gen, blocks: seq<Block>)
    requires g.Settled() && ArmBlocks(thenBlock, elseBlock, endBlock, g) && SameTargets(loops, g, g)
    requires Within(EmitArm(c, thenBlock, elseBlock, endBlock, frames, loops, g), blocks)
    ensures Within(Append(EmitPieces(c.guard.pieces, g), CondBr(c.guard.result, thenBlock, elseBlock)), blocks)
    ensures var g3 := ArmStart(c, thenBlock, elseBlock, g);
      && Within(CloseWith(EmitBody(c.body, frames, loops, g3), endBlock), blocks)
      && g3.Settled() && SameTargets(loops, g, g3) && forall h :: Here(g3, h) == At(thenBlock, 0, h)
  {
    var g1 := EmitPieces(c.guard.pieces, g);
    EmitPiecesGrows(c.guard.pieces, g);
    var g2 := Append(g1, CondBr(c.guard.result, thenBlock, elseBlock));
    AppendGrows(g1, CondBr(c.guard.result, thenBlock, elseBlock));
    GrowsTrans(g, g1, g2, {});
    TargetsKept({}, loops, g, g2);
    var g3 := MoveTo(g2, thenBlock);
    var e := EmitBody(c.body, frames, loops, g3);
    EmitBodyGrows(c.body, frames, loops, g3);
    CloseWithGrows(e, endBlock);
    WithinGrows(e.g, CloseWith(e, endBlock), {}, blocks);
    WithinGrows(g3, e.g, BodyIds(c.body) + HeldIds(frames), blocks);
  }

  lemma {:induction false} SimIf(main: Clause, elseIfs: seq<Clause>, otherwise: Option<Body>, frames: seq<Frame>,
                                 loops: seq<Loop>, inDefer: bool, g: Gen, blocks: seq<Block>, orc: Oracle,
                                 h: History, fuel: nat)
    returns (n: nat, gj: Gen)
    requires Ready(ClauseIds(main) + ClausesIds(elseIfs) + OtherwiseIds(otherwise), frames, loops, g)
    requires ConfinedClause(main, loops, inDefer) && DistinctClause(main)
    requires ConfinedClauses(elseIfs, loops, inDefer) && DistinctClauses(elseIfs)
    requires ConfinedOtherwise(otherwise, loops, inDefer) && DistinctOtherwise(otherwise)
    requires Within(EmitIf(main, elseIfs, otherwise, frames, loops, g), blocks)
    ensures Tracks(ExecIf(main, elseIfs, otherwise, frames, orc, h, fuel), fuel,
                   Emitted(EmitIf(main, elseIfs, otherwise, frames, loops, g), true), Here(g, h), n, gj,
                   None, frames, loops, inDefer, g, blocks, orc)
    decreases fuel, FramesWeight(frames) + ClauseWeight(main) + ClausesWeight(elseIfs) + OtherwiseWeight(otherwise), 5
  {
    var ids := ClauseIds(main) + ClausesIds(elseIfs) + OtherwiseIds(otherwise);
    var b := |g.blocks|;
    var g0 := AppendThree(g);
    ReadyThree(ids, frames, loops, g);
    n, gj := SimChain(main, b, b + 1, b + 2, elseIfs, otherwise, frames, loops, inDefer, g0,
                      EmitIf(main, elseIfs, otherwise, frames, loops, g), blocks, orc, h, fuel);
    n := TracksAfter(Here(g, h), 0, Here(g0, h), ExecIf(main, elseIfs, otherwise, frames, orc, h, fuel), fuel, fuel,
                     Emitted(EmitIf(main, elseIfs, otherwise, frames, loops, g), true), n, gj, None, frames, loops, inDefer,
                     g, g0, blocks, orc);
  }

  lemma ReadySubset(ids: set<nat>, some: set<nat>, frames: seq<Frame>, loops: seq<Loop>, g: Gen, g1: Gen)
    requires Ready(ids, frames, loops, g) && some <= ids && g1.Settled()
    requires SameTargets(loops, g, g1)
    ensures Ready(some, frames, loops, g1)
  {
  }

  lemma ReadyThree(ids: set<nat>, frames: seq<Frame>, loops: seq<Loop>, g: Gen)
    requires Ready(ids, frames, loops, g)
    ensures Ready(ids, frames, loops, AppendThree(g)) && SameTargets(loops, g, AppendThree(g))
  {
  }

  /** The pieces of one arm and the alternatives after it, inside the finished code. */
  lemma IfParts(c: Clause, thenBlock: nat, elseBlock: nat, endBlock: nat, cs: seq<Clause>, otherwise: Option<Body>,
                frames: seq<Frame>, loops: seq<Loop>, g0: Gen, blocks: seq<Block>)
    requires g0.Settled() && SameTargets(loops, g0, g0)
    requires ArmBlocks(thenBlock, elseBlock, endBlock, g0)
    requires (ClauseIds(c) + HeldIds(frames)) !! LoopIds(loops)
    requires Within(EmitElse(cs, otherwise, endBlock, frames, loops,
                             EmitArm(c, thenBlock, elseBlock, endBlock, frames, loops, g0)), blocks)
    ensures var g1 := EmitArm(c, thenBlock, elseBlock, endBlock, frames, loops, g0);
      && g1.Settled() && g1.pos == elseBlock && endBlock != g1.definitions && Within(g1, blocks)
      && g1.blocks[elseBlock] == [] && g1.blocks[endBlock] == [] && SameTargets(loops, g0, g1)
    ensures var fin := EmitElse(cs, otherwise, endBlock, frames, loops,
                                EmitArm(c, thenBlock, elseBlock, endBlock, frames, loops, g0));
      fin.pos == endBlock && fin.blocks[endBlock] == []
  {
    var g1 := EmitArm(c, thenBlock, elseBlock, endBlock, frames, loops, g0);
    EmitArmGrows(c, thenBlock, elseBlock, endBlock, frames, loops, g0);
    ArmTargets(ClauseIds(c) + HeldIds(frames), thenBlock, frames, loops, g0, g1);
    EmitElseLonger(cs, otherwise, endBlock, frames, loops, g1);
    WithinLonger(g1, EmitElse(cs, otherwise, endBlock, frames, loops, g1), blocks);
  }

  lemma ArmTargets(ids: set<nat>, thenBlock: nat, frames: seq<Frame>, loops: seq<Loop>, g0: Gen, g1: Gen)
    requires ArmGrows(g0, g1, thenBlock, ids) && ids !! LoopIds(loops) && SameTargets(loops, g0, g0)
    ensures SameTargets(loops, g0, g1)
  {
    forall l | l in loops
      ensures l.id in g0.targets && l.id in g1.targets && g0.targets[l.id] == g1.targets[l.id]
    {
      assert l.id in LoopIds(loops);
    }
  }

  lemma {:induction false} SimElse(cs: seq<Clause>, otherwise: Option<Body>, endBlock: nat, frames: seq<Frame>,
                                   loops: seq<Loop>, inDefer: bool, g: Gen, blocks: seq<Block>, orc: Oracle,
                                   h: History, fuel: nat)
    returns (n: nat, gj: Gen)
    requires Ready(ClausesIds(cs) + OtherwiseIds(otherwise), frames, loops, g)
    requires ConfinedClauses(cs, loops, inDefer) && DistinctClauses(cs)
    requires ConfinedOtherwise(otherwise, loops, inDefer) && DistinctOtherwise(otherwise)
    requires endBlock < |g.blocks| && endBlock != g.definitions && endBlock != g.pos && g.blocks[endBlock] == []
    requires Within(EmitElse(cs, otherwise, endBlock, frames, loops, g), blocks)
    ensures Tracks(ExecElse(cs, otherwise, frames, orc, h, fuel), fuel,
                   Emitted(EmitElse(cs, otherwise, endBlock, frames, loops, g), true), Here(g, h), n, gj,
                   None, frames, loops, inDefer, g, blocks, orc)
    decreases fuel, FramesWeight(frames) + ClausesWeight(cs) + OtherwiseWeight(otherwise), 6
  {
    gj := g;
    if cs != [] {
      n, gj := SimElseIf(cs, otherwise, endBlock, frames, loops, inDefer, g, blocks, orc, h, fuel);
    } else {
      var fin := EmitElse(cs, otherwise, endBlock, frames, loops, g);
      EmitElseLonger(cs, otherwise, endBlock, frames, loops, g);
      match otherwise
      case None =>
        NextInstr(g, Br(endBlock), blocks);
        RunOne(blocks, orc, Here(g, h));
        n := 1;
      case Some(b) =>
        n, gj := SimBranch(b, endBlock, fin, frames, loops, inDefer, g, g, blocks, orc, h, fuel);
    }
  }

  lemma {:induction false} SimElseIf(cs: seq<Clause>, otherwise: Option<Body>, endBlock: nat, frames: seq<Frame>,
                                     loops: seq<Loop>, inDefer: bool, g: Gen, blocks: seq<Block>, orc: Oracle,
                                     h: History, fuel: nat)
    returns (n: nat, gj: Gen)
    requires Ready(ClausesIds(cs) + OtherwiseIds(otherwise), frames, loops, g)
    requires cs != [] && ConfinedClauses(cs, loops, inDefer) && DistinctClauses(cs)
    requires ConfinedOtherwise(otherwise, loops, inDefer) && DistinctOtherwise(otherwise)
    requires endBlock < |g.blocks| && endBlock != g.definitions && endBlock != g.pos && g.blocks[endBlock] == []
    requires Within(EmitElse(cs, otherwise, endBlock, frames, loops, g), blocks)
    ensures Tracks(ExecElse(cs, otherwise, frames, orc, h, fuel), fuel,
                   Emitted(EmitElse(cs, otherwise, endBlock, frames, loops, g), true), Here(g, h), n, gj,
                   None, frames, loops, inDefer, g, blocks, orc)
    decreases fuel, FramesWeight(frames) + ClausesWeight(cs) + OtherwiseWeight(otherwise), 5
  {
    var ids := ClausesIds(cs) + OtherwiseIds(otherwise);
    var b := |g.blocks|;
    var g0 := AppendBlock(AppendBlock(g));
    ReadySubset(ids, ClauseIds(cs[0]) + ClausesIds(cs[1..]) + OtherwiseIds(otherwise), frames, loops, g, g0);
    n, gj := SimChain(cs[0], b + 1, b, endBlock, cs[1..], otherwise, frames, loops, inDefer, g0,
                      EmitElse(cs, otherwise, endBlock, frames, loops, g), blocks, orc, h, fuel);
    n := TracksAfter(Here(g, h), 0, Here(g0, h), ExecElse(cs, otherwise, frames, orc, h, fuel), fuel, fuel,
                     Emitted(EmitElse(cs, otherwise, endBlock, frames, loops, g), true), n, gj, None, frames, loops, inDefer,
                     g, g0, blocks, orc);
  }
}
