/** Analysis time and run time agree: the defers attached to a jump are those the run-time stack
    holds when the jump is made. */
module Runtime {
  import opened Options
  import opened Syntax
  import opened Defers
  import opened Emission
  import opened Annotations
  import opened Semantics
  import opened Growth
  import opened Backend

  // ---------- every jump of a run ----------

  /** A jump at the moment it is made, with the loops written around it, of those inside its defer if
      it is in one. */
  datatype Raised = Raised(out: Outcome, loops: seq<Loop>, inDefer: bool)

  /** The jumps made by a run of the statements, in order: those that leave, those that a loop among the
      statements catches, and those of the defers that are replayed on the way. */
  ghost function JumpsOfStmts(ss: seq<Stmt>, frames: seq<Frame>, loops: seq<Loop>, inDefer: bool,
                              orc: Oracle, h: History, fuel: nat): seq<Raised>
    requires frames != []
    decreases fuel, FramesWeight(frames) + StmtsWeight(ss), 2
  {
    if ss == [] then []
    else match ss[0]
      case Return(site, v) => [Raised(Jumped(site, ReturnWith(v), frames), loops, inDefer)]
      case Control(site, isBreak, name) => [Raised(Jumped(site, Leave(isBreak, name), frames), loops, inDefer)]
      case Defer(body) =>
        assert StmtWeight(ss[0]) == 1 + BodyWeight(body);
        JumpsOfStmts(ss[1..], Hold(frames, body), loops, inDefer, orc, h, fuel)
      case _ =>
        var r := ExecStmt(ss[0], frames, orc, h, fuel);
        JumpsOfStmt(ss[0], frames, loops, inDefer, orc, h, fuel)
        + if r.out == Normal then JumpsOfStmts(ss[1..], frames, loops, inDefer, orc, r.h, r.fuel) else []
  }

  ghost function JumpsOfStmt(s: Stmt, frames: seq<Frame>, loops: seq<Loop>, inDefer: bool,
                             orc: Oracle, h: History, fuel: nat): seq<Raised>
    requires frames != []
    decreases fuel, FramesWeight(frames) + StmtWeight(s), 1
  {
    match s
    case While(id, name, guard, body) => JumpsOfLoop(id, name, guard, body, frames, loops, inDefer, orc, h, fuel)
    case If(main, elseIfs, otherwise) => JumpsOfIf(main, elseIfs, otherwise, frames, loops, inDefer, orc, h, fuel)
    case _ => []
  }

  ghost function JumpsOfBody(b: Body, frames: seq<Frame>, loops: seq<Loop>, inDefer: bool,
                             orc: Oracle, h: History, fuel: nat): seq<Raised>
    decreases fuel, FramesWeight(frames) + BodyWeight(b), 0
  {
    var inner := [Frame(b.id, [])] + frames;
    JumpsOfStmts(b.stmts, inner, loops, inDefer, orc, h, fuel)
    + JumpsOfUnwind(ExecStmts(b.stmts, inner, orc, h, fuel), orc)
  }

  ghost function JumpsOfUnwind(p: Partial, orc: Oracle): seq<Raised>
    decreases p.r.fuel, BodiesWeight(p.defers), 2
  {
    match p.r.out
    case OutOfFuel => []
    case Normal => JumpsOfBodies(p.defers, orc, p.r.h, p.r.fuel)
    case Jumped(_, _, _) => JumpsOfBodies(Reversed(p.defers), orc, p.r.h, p.r.fuel)
  }

  ghost function JumpsOfBodies(ds: seq<Body>, orc: Oracle, h: History, fuel: nat): seq<Raised>
    decreases fuel, BodiesWeight(ds), 1
  {
    if ds == [] then []
    else
      var r := ExecBody(ds[0], [], orc, h, fuel);
      JumpsOfBody(ds[0], [], [], true, orc, h, fuel)
      + if r.out == Normal then JumpsOfBodies(ds[1..], orc, r.h, r.fuel) else []
  }

  ghost function JumpsOfLoop(id: nat, name: Option<string>, guard: Operand, body: Body, frames: seq<Frame>,
                             loops: seq<Loop>, inDefer: bool, orc: Oracle, h: History, fuel: nat): seq<Raised>
    decreases fuel, FramesWeight(frames) + BodyWeight(body) + 1, 0
  {
    if fuel == 0 then []
    else
      var h1 := AfterPieces(guard.pieces, h);
      var answer := orc(h1, guard.result);
      var h2 := h1 + [Tested(guard.result, answer)];
      if !answer then []
      else
        var r := ExecBody(body, frames, orc, h2, fuel - 1);
        JumpsOfBody(body, frames, loops + [Loop(id, name, body.id)], inDefer, orc, h2, fuel - 1)
        + if GoesOn(name, r) then JumpsOfLoop(id, name, guard, body, frames, loops, inDefer, orc, r.h, r.fuel) else []
  }

  predicate GoesOn(name: Option<string>, r: Result) {
    r.out == Normal || (r.out.Jumped? && Catches(name, r.out.jump) && !r.out.jump.isBreak)
  }

  ghost function JumpsOfIf(main: Clause, elseIfs: seq<Clause>, otherwise: Option<Body>, frames: seq<Frame>,
                           loops: seq<Loop>, inDefer: bool, orc: Oracle, h: History, fuel: nat): seq<Raised>
    decreases fuel, FramesWeight(frames) + ClauseWeight(main) + ClausesWeight(elseIfs) + OtherwiseWeight(otherwise), 2
  {
    var h1 := AfterPieces(main.guard.pieces, h);
    var answer := orc(h1, main.guard.result);
    var h2 := h1 + [Tested(main.guard.result, answer)];
    if answer then JumpsOfBody(main.body, frames, loops, inDefer, orc, h2, fuel)
    else if elseIfs != [] then JumpsOfIf(elseIfs[0], elseIfs[1..], otherwise, frames, loops, inDefer, orc, h2, fuel)
    else match otherwise
      case Some(b) => JumpsOfBody(b, frames, loops, inDefer, orc, h2, fuel)
      case None => []
  }

  // ---------- each of them is as noted ----------

  /** What analysis noted for a jump is what the run-time stack says when it is made. */
  ghost predicate Noted(t: Notes, out: Outcome, loops: seq<Loop>, inDefer: bool)
    requires out.Jumped?
  {
    && out.site in t.siteDefers
    && match out.jump
       case ReturnWith(_) => !inDefer && t.siteDefers[out.site] == DefersUpTo(out.held, None)
       case Leave(_, name) =>
         var l := FindLoop(loops, name);
         && l.Some? && out.site in t.siteLoop && t.siteLoop[out.site] == l.value
         && t.siteDefers[out.site] == DefersUpTo(out.held, Some(l.value.body))
  }

  ghost predicate AllNoted(t: Notes, js: seq<Raised>) {
    forall j <- js :: j.out.Jumped? && Noted(t, j.out, j.loops, j.inDefer)
  }

  /** The jump with which a run ends is one of those it made. */
  ghost predicate Among(r: Result, js: seq<Raised>) {
    r.out.Jumped? ==> exists j <- js :: j.out == r.out
  }

  lemma {:induction false} NotedStmts(t: Notes, ss: seq<Stmt>, frames: seq<Frame>, loops: seq<Loop>, inDefer: bool,
                                      orc: Oracle, h: History, fuel: nat)
    requires Ahead(t, ss, frames, loops, inDefer)
    ensures var p := ExecStmts(ss, frames, orc, h, fuel);
      && (p.r.out.Jumped? ==> Noted(t, p.r.out, loops, inDefer))
      && (forall d :: d in p.defers ==> ReplayNoted(t, d))
    ensures AllNoted(t, JumpsOfStmts(ss, frames, loops, inDefer, orc, h, fuel))
    ensures Among(ExecStmts(ss, frames, orc, h, fuel).r, JumpsOfStmts(ss, frames, loops, inDefer, orc, h, fuel))
    decreases fuel, FramesWeight(frames) + StmtsWeight(ss), 2
  {
    assert forall d :: d in frames[0].defers ==> frames[0] in frames && ReplayNoted(t, d);
    if ss != [] {
      AheadStep(t, ss, frames, loops, inDefer);
      var frames1 := StepFrames(ss[0], frames);
      match ss[0]
      case Return(_, _) =>
      case Control(_, _, _) =>
      case Defer(body) =>
        assert StmtWeight(ss[0]) == 1 + BodyWeight(body);
        NotedStmts(t, ss[1..], frames1, loops, inDefer, orc, h, fuel);
      case _ =>
        NotedStmt(t, ss[0], frames, loops, inDefer, orc, h, fuel);
        var r := ExecStmt(ss[0], frames, orc, h, fuel);
        if r.out == Normal {
          NotedStmts(t, ss[1..], frames, loops, inDefer, orc, r.h, r.fuel);
        }
    }
  }

  lemma {:induction false} NotedStmt(t: Notes, s: Stmt, frames: seq<Frame>, loops: seq<Loop>, inDefer: bool,
                                     orc: Oracle, h: History, fuel: nat)
    requires frames != [] && Around(t, frames, loops) && AnnotatedStmt(t, s, frames, loops)
    requires ConfinedStmt(s, loops, inDefer) && DistinctStmt(s)
    ensures var r := ExecStmt(s, frames, orc, h, fuel); r.out.Jumped? ==> Noted(t, r.out, loops, inDefer)
    ensures AllNoted(t, JumpsOfStmt(s, frames, loops, inDefer, orc, h, fuel))
    ensures Among(ExecStmt(s, frames, orc, h, fuel), JumpsOfStmt(s, frames, loops, inDefer, orc, h, fuel))
    decreases fuel, FramesWeight(frames) + StmtWeight(s), 1
  {
    match s
    case While(id, name, guard, body) => NotedLoop(t, id, name, guard, body, frames, loops, inDefer, orc, h, fuel);
    case If(main, elseIfs, otherwise) => NotedIf(t, main, elseIfs, otherwise, frames, loops, inDefer, orc, h, fuel);
    case _ =>
  }

  lemma {:induction false} NotedBody(t: Notes, b: Body, frames: seq<Frame>, loops: seq<Loop>, inDefer: bool,
                                     orc: Oracle, h: History, fuel: nat)
    requires Around(t, frames, loops) && AnnotatedBody(t, b, frames, loops)
    requires ConfinedBody(b, loops, inDefer) && DistinctBody(b)
    ensures var r := ExecBody(b, frames, orc, h, fuel); r.out.Jumped? ==> Noted(t, r.out, loops, inDefer)
    ensures AllNoted(t, JumpsOfBody(b, frames, loops, inDefer, orc, h, fuel))
    ensures Among(ExecBody(b, frames, orc, h, fuel), JumpsOfBody(b, frames, loops, inDefer, orc, h, fuel))
    decreases fuel, FramesWeight(frames) + BodyWeight(b), 0
  {
    var inner := [Frame(b.id, [])] + frames;
    AroundInner(t, frames, loops, b.id);
    NotedStmts(t, b.stmts, inner, loops, inDefer, orc, h, fuel);
    var p := ExecStmts(b.stmts, inner, orc, h, fuel);
    match p.r.out
    case OutOfFuel =>
    case Normal => NoJump(t, p.defers, orc, p.r.h, p.r.fuel);
    case Jumped(_, _, _) =>
      forall d | d in Reversed(p.defers)
        ensures ReplayNoted(t, d)
      {
        ReversedMembers(p.defers, d);
      }
      NoJump(t, Reversed(p.defers), orc, p.r.h, p.r.fuel);
  }

  /** Replayed defers end, or go on for ever; they never jump. */
  lemma {:induction false} NoJump(t: Notes, ds: seq<Body>, orc: Oracle, h: History, fuel: nat)
    requires forall d :: d in ds ==> ReplayNoted(t, d)
    ensures !ExecBodies(ds, orc, h, fuel).out.Jumped?
    ensures AllNoted(t, JumpsOfBodies(ds, orc, h, fuel))
    decreases fuel, BodiesWeight(ds), 1
  {
    if ds != [] {
      assert ds[0] in ds;
      NotedBody(t, ds[0], [], [], true, orc, h, fuel);
      var r := ExecBody(ds[0], [], orc, h, fuel);
      if r.out == Normal {
        NoJump(t, ds[1..], orc, r.h, r.fuel);
      }
    }
  }

  lemma {:induction false} NotedLoop(t: Notes, id: nat, name: Option<string>, guard: Operand, body: Body, frames: seq<Frame>,
                                     loops: seq<Loop>, inDefer: bool, orc: Oracle, h: History, fuel: nat)
    requires Around(t, frames, loops) && (name.Some? ==> FindLoop(loops, name).None?)
    requires AnnotatedBody(t, body, frames, loops + [Loop(id, name, body.id)])
    requires ConfinedBody(body, loops + [Loop(id, name, body.id)], inDefer) && DistinctBody(body)
    ensures var r := ExecLoop(name, guard, body, frames, orc, h, fuel); r.out.Jumped? ==> Noted(t, r.out, loops, inDefer)
    ensures AllNoted(t, JumpsOfLoop(id, name, guard, body, frames, loops, inDefer, orc, h, fuel))
    ensures Among(ExecLoop(name, guard, body, frames, orc, h, fuel), JumpsOfLoop(id, name, guard, body, frames, loops, inDefer, orc, h, fuel))
    decreases fuel, FramesWeight(frames) + BodyWeight(body) + 1, 0
  {
    if fuel > 0 {
      var l := Loop(id, name, body.id);
      var h1 := AfterPieces(guard.pieces, h);
      var answer := orc(h1, guard.result);
      if answer {
        var h2 := h1 + [Tested(guard.result, answer)];
        NamesDistinctPush(loops, l);
        NotedBody(t, body, frames, loops + [l], inDefer, orc, h2, fuel - 1);
        var r := ExecBody(body, frames, orc, h2, fuel - 1);
        if r.out == Normal || (r.out.Jumped? && Catches(name, r.out.jump) && !r.out.jump.isBreak) {
          NotedLoop(t, id, name, guard, body, frames, loops, inDefer, orc, r.h, r.fuel);
        } else if r.out.Jumped? && r.out.jump.Leave? {
          FindLoopPush(loops, l, r.out.jump.name);
        }
      }
    }
  }

  lemma {:induction false} NotedIf(t: Notes, main: Clause, elseIfs: seq<Clause>, otherwise: Option<Body>, frames: seq<Frame>,
                                   loops: seq<Loop>, inDefer: bool, orc: Oracle, h: History, fuel: nat)
    requires Around(t, frames, loops)
    requires AnnotatedClause(t, main, frames, loops) && ConfinedClause(main, loops, inDefer) && DistinctClause(main)
    requires AnnotatedClauses(t, elseIfs, frames, loops) && ConfinedClauses(elseIfs, loops, inDefer) && DistinctClauses(elseIfs)
    requires AnnotatedOtherwise(t, otherwise, frames, loops) && ConfinedOtherwise(otherwise, loops, inDefer)
    requires DistinctOtherwise(otherwise)
    ensures var r := ExecIf(main, elseIfs, otherwise, frames, orc, h, fuel); r.out.Jumped? ==> Noted(t, r.out, loops, inDefer)
    ensures AllNoted(t, JumpsOfIf(main, elseIfs, otherwise, frames, loops, inDefer, orc, h, fuel))
    ensures Among(ExecIf(main, elseIfs, otherwise, frames, orc, h, fuel), JumpsOfIf(main, elseIfs, otherwise, frames, loops, inDefer, orc, h, fuel))
    decreases fuel, FramesWeight(frames) + ClauseWeight(main) + ClausesWeight(elseIfs) + OtherwiseWeight(otherwise), 2
  {
    var h1 := AfterPieces(main.guard.pieces, h);
    var answer := orc(h1, main.guard.result);
    var h2 := h1 + [Tested(main.guard.result, answer)];
    if answer {
      NotedBody(t, main.body, frames, loops, inDefer, orc, h2, fuel);
    } else if elseIfs != [] {
      ClausesStep(t, elseIfs, frames, loops, inDefer);
      NotedIf(t, elseIfs[0], elseIfs[1..], otherwise, frames, loops, inDefer, orc, h2, fuel);
    } else if otherwise.Some? {
      NotedBody(t, otherwise.value, frames, loops, inDefer, orc, h2, fuel);
    }
  }
}
