/** Every defer a body has reached runs exactly once when the body is left, whichever way it is left;
    a defer it has not reached does not run. Runs are counted by an action that nothing else does. */
module Conservation {
  import opened Options
  import opened Syntax
  import opened Defers
  import opened Semantics
  import opened Emission
  import opened Simulation

  // ---------- code that never does `a` ----------

  predicate QuietPieces(ps: seq<Piece>, a: nat) {
    Do(a) !in ps
  }

  predicate QuietStmts(ss: seq<Stmt>, a: nat) {
    ss == [] || (QuietStmt(ss[0], a) && QuietStmts(ss[1..], a))
  }

  predicate QuietBody(b: Body, a: nat) {
    QuietStmts(b.stmts, a)
  }

  predicate QuietStmt(s: Stmt, a: nat) {
    match s
    case Eval(ps) => QuietPieces(ps, a)
    case Return(_, v) => true   // the value is evaluated after the defers of the whole function
    case Control(_, _, _) => true
    case While(_, _, guard, body) => QuietPieces(guard.pieces, a) && QuietBody(body, a)
    case If(main, elseIfs, otherwise) => QuietClause(main, a) && QuietClauses(elseIfs, a) && QuietOtherwise(otherwise, a)
    case Defer(body) => QuietBody(body, a)
  }

  predicate QuietClause(c: Clause, a: nat) {
    QuietPieces(c.guard.pieces, a) && QuietBody(c.body, a)
  }

  predicate QuietClauses(cs: seq<Clause>, a: nat) {
    cs == [] || (QuietClause(cs[0], a) && QuietClauses(cs[1..], a))
  }

  predicate QuietOtherwise(o: Option<Body>, a: nat) {
    match o
    case None => true
    case Some(b) => QuietBody(b, a)
  }

  /** How often `a` was done. */
  function Count(h: History, a: nat): nat {
    if h == [] then 0 else (if h[|h| - 1] == Did(a) then 1 else 0) + Count(h[..|h| - 1], a)
  }

  lemma CountSnoc(h: History, e: Event, a: nat)
    ensures Count(h + [e], a) == Count(h, a) + if e == Did(a) then 1 else 0
  {
    assert (h + [e])[..|h|] == h;
  }

  lemma {:induction false} CountPieces(ps: seq<Piece>, h: History, a: nat)
    requires QuietPieces(ps, a)
    ensures Count(AfterPieces(ps, h), a) == Count(h, a)
    decreases |ps|
  {
    if ps != [] {
      assert ps[0] in ps;
      match ps[0]
      case Do(x) =>
        CountSnoc(h, Did(x), a);
        CountPieces(ps[1..], h + [Did(x)], a);
      case Slot(_) => CountPieces(ps[1..], h, a);
    }
  }

  // ---------- quiet code keeps the count ----------

  lemma {:induction false} QuietRun(ss: seq<Stmt>, frames: seq<Frame>, orc: Oracle, h: History, fuel: nat, a: nat)
    requires frames != [] && QuietStmts(ss, a) && forall d :: d in frames[0].defers ==> QuietBody(d, a)
    ensures var p := ExecStmts(ss, frames, orc, h, fuel);
      Count(p.r.h, a) == Count(h, a) && forall d :: d in p.defers ==> QuietBody(d, a)
    decreases fuel, FramesWeight(frames) + StmtsWeight(ss), 2
  {
    if ss != [] {
      match ss[0]
      case Return(_, _) =>
      case Control(_, _, _) =>
      case Defer(body) =>
        assert StmtWeight(ss[0]) == 1 + BodyWeight(body);
        QuietRun(ss[1..], Hold(frames, body), orc, h, fuel, a);
      case _ =>
        QuietStmtRun(ss[0], frames, orc, h, fuel, a);
        var r := ExecStmt(ss[0], frames, orc, h, fuel);
        if r.out == Normal {
          QuietRun(ss[1..], frames, orc, r.h, r.fuel, a);
        }
    }
  }

  lemma {:induction false} QuietStmtRun(s: Stmt, frames: seq<Frame>, orc: Oracle, h: History, fuel: nat, a: nat)
    requires frames != [] && QuietStmt(s, a)
    ensures Count(ExecStmt(s, frames, orc, h, fuel).h, a) == Count(h, a)
    decreases fuel, FramesWeight(frames) + StmtWeight(s), 1
  {
    match s
    case Eval(ps) => CountPieces(ps, h, a);
    case While(_, name, guard, body) => QuietLoopRun(name, guard, body, frames, orc, h, fuel, a);
    case If(main, elseIfs, otherwise) => QuietIfRun(main, elseIfs, otherwise, frames, orc, h, fuel, a);
    case _ =>
  }

  lemma {:induction false} QuietBodyRun(b: Body, frames: seq<Frame>, orc: Oracle, h: History, fuel: nat, a: nat)
    requires QuietBody(b, a)
    ensures Count(ExecBody(b, frames, orc, h, fuel).h, a) == Count(h, a)
    decreases fuel, FramesWeight(frames) + BodyWeight(b), 0
  {
    var inner := [Frame(b.id, [])] + frames;
    var p := ExecStmts(b.stmts, inner, orc, h, fuel);
    QuietRun(b.stmts, inner, orc, h, fuel, a);
    match p.r.out
    case OutOfFuel =>
    case Normal => QuietBodiesRun(p.defers, orc, p.r.h, p.r.fuel, a);
    case Jumped(_, _, _) =>
      forall d | d in Reversed(p.defers)
        ensures QuietBody(d, a)
      {
        ReversedMembers(p.defers, d);
      }
      QuietBodiesRun(Reversed(p.defers), orc, p.r.h, p.r.fuel, a);
  }

  lemma {:induction false} QuietBodiesRun(ds: seq<Body>, orc: Oracle, h: History, fuel: nat, a: nat)
    requires forall d :: d in ds ==> QuietBody(d, a)
    ensures Count(ExecBodies(ds, orc, h, fuel).h, a) == Count(h, a)
    decreases fuel, BodiesWeight(ds), 1
  {
    if ds != [] {
      assert ds[0] in ds;
      QuietBodyRun(ds[0], [], orc, h, fuel, a);
      var r := ExecBody(ds[0], [], orc, h, fuel);
      if r.out == Normal {
        QuietBodiesRun(ds[1..], orc, r.h, r.fuel, a);
      }
    }
  }

  lemma {:induction false} QuietLoopRun(name: Option<string>, guard: Operand, body: Body, frames: seq<Frame>,
                                        orc: Oracle, h: History, fuel: nat, a: nat)
    requires QuietPieces(guard.pieces, a) && QuietBody(body, a)
    ensures Count(ExecLoop(name, guard, body, frames, orc, h, fuel).h, a) == Count(h, a)
    decreases fuel, FramesWeight(frames) + BodyWeight(body) + 1, 0
  {
    if fuel > 0 {
      var h1 := AfterPieces(guard.pieces, h);
      var answer := orc(h1, guard.result);
      CountPieces(guard.pieces, h, a);
      CountSnoc(h1, Tested(guard.result, answer), a);
      if answer {
        var h2 := h1 + [Tested(guard.result, answer)];
        QuietBodyRun(body, frames, orc, h2, fuel - 1, a);
        var r := ExecBody(body, frames, orc, h2, fuel - 1);
        QuietLoopRun(name, guard, body, frames, orc, r.h, r.fuel, a);
      }
    }
  }

  lemma {:induction false} QuietIfRun(main: Clause, elseIfs: seq<Clause>, otherwise: Option<Body>, frames: seq<Frame>,
                                      orc: Oracle, h: History, fuel: nat, a: nat)
    requires QuietClause(main, a) && QuietClauses(elseIfs, a) && QuietOtherwise(otherwise, a)
    ensures Count(ExecIf(main, elseIfs, otherwise, frames, orc, h, fuel).h, a) == Count(h, a)
    decreases fuel, FramesWeight(frames) + ClauseWeight(main) + ClausesWeight(elseIfs) + OtherwiseWeight(otherwise), 2
  {
    var h1 := AfterPieces(main.guard.pieces, h);
    var answer := orc(h1, main.guard.result);
    var h2 := h1 + [Tested(main.guard.result, answer)];
    CountPieces(main.guard.pieces, h, a);
    CountSnoc(h1, Tested(main.guard.result, answer), a);
    if answer {
      QuietBodyRun(main.body, frames, orc, h2, fuel, a);
    } else if elseIfs != [] {
      QuietIfRun(elseIfs[0], elseIfs[1..], otherwise, frames, orc, h2, fuel, a);
    } else if otherwise.Some? {
      QuietBodyRun(otherwise.value, frames, orc, h2, fuel, a);
    }
  }

  // ---------- one defer among quiet code ----------

  /** A defer whose body starts with `a`, does it nowhere else, and may be replayed. */
  ghost predicate Marked(d: Body, a: nat) {
    d.stmts != [] && d.stmts[0] == Eval([Do(a)]) && QuietStmts(d.stmts[1..], a)
  }

  lemma MarkedRun(d: Body, orc: Oracle, h: History, fuel: nat, a: nat)
    requires Marked(d, a)
    ensures Count(ExecBody(d, [], orc, h, fuel).h, a) == Count(h, a) + 1
  {
    var inner := [Frame(d.id, [])] + [];
    var h1 := h + [Did(a)];
    CountSnoc(h, Did(a), a);
    assert [Do(a)][1..] == [];
    assert AfterPieces([Do(a)], h) == h1;
    QuietRun(d.stmts[1..], inner, orc, h1, fuel, a);
    var p := ExecStmts(d.stmts[1..], inner, orc, h1, fuel);
    assert ExecStmts(d.stmts, inner, orc, h, fuel) == p;
    match p.r.out
    case OutOfFuel =>
    case Normal => QuietBodiesRun(p.defers, orc, p.r.h, p.r.fuel, a);
    case Jumped(_, _, _) =>
      forall e | e in Reversed(p.defers)
        ensures QuietBody(e, a)
      {
        ReversedMembers(p.defers, e);
      }
      QuietBodiesRun(Reversed(p.defers), orc, p.r.h, p.r.fuel, a);
  }

  /** Running a list of defers with one marked one among quiet ones, to the end. */
  lemma {:induction false} OneAmong(ds: seq<Body>, k: nat, orc: Oracle, h: History, fuel: nat, a: nat)
    requires k < |ds| && Marked(ds[k], a) && forall i :: 0 <= i < |ds| && i != k ==> QuietBody(ds[i], a)
    requires ExecBodies(ds, orc, h, fuel).out == Normal
    ensures Count(ExecBodies(ds, orc, h, fuel).h, a) == Count(h, a) + 1
    decreases |ds|
  {
    var r := ExecBody(ds[0], [], orc, h, fuel);
    assert forall i :: 0 <= i < |ds[1..]| ==> ds[1..][i] == ds[i + 1];
    if k == 0 {
      MarkedRun(ds[0], orc, h, fuel, a);
      QuietBodiesRun(ds[1..], orc, r.h, r.fuel, a);
    } else {
      QuietBodyRun(ds[0], [], orc, h, fuel, a);
      OneAmong(ds[1..], k - 1, orc, r.h, r.fuel, a);
    }
  }

  /** Running a list is running its beginning, and then the rest if the beginning ends normally. */
  lemma {:induction false} ExecConcat(x: seq<Stmt>, y: seq<Stmt>, frames: seq<Frame>, orc: Oracle, h: History, fuel: nat)
    requires frames != []
    ensures var p := ExecStmts(x, frames, orc, h, fuel);
      ExecStmts(x + y, frames, orc, h, fuel) ==
        if p.r.out != Normal then p
        else ExecStmts(y, [Frame(frames[0].body, p.defers)] + frames[1..], orc, p.r.h, p.r.fuel)
    decreases |x|
  {
    if x == [] {
      assert x + y == y;
      assert [Frame(frames[0].body, frames[0].defers)] + frames[1..] == frames;
    } else {
      assert (x + y)[0] == x[0] && (x + y)[1..] == x[1..] + y;
      match x[0]
      case Return(_, _) =>
      case Control(_, _, _) =>
      case Defer(body) =>
        ExecConcat(x[1..], y, Hold(frames, body), orc, h, fuel);
        assert Hold(frames, body)[1..] == frames[1..];
      case _ =>
        var r := ExecStmt(x[0], frames, orc, h, fuel);
        if r.out == Normal {
          ExecConcat(x[1..], y, frames, orc, r.h, r.fuel);
        }
    }
  }

  /** A body whose only mention of `a` is in the defer at position `k`, and that is left: `a` is done
      once more than before if the run got past position `k`, and not at all otherwise. */
  lemma DeferRunsOnce(b: Body, k: nat, frames: seq<Frame>, orc: Oracle, h: History, fuel: nat, a: nat)
    requires k < |b.stmts| && b.stmts[k].Defer? && Marked(b.stmts[k].body, a)
    requires QuietStmts(b.stmts[..k], a) && QuietStmts(b.stmts[k + 1..], a)
    requires forall d :: d in Registered(b.stmts) ==> Replayable(d)
    requires ExecBody(b, frames, orc, h, fuel).out != OutOfFuel
    ensures var reached := ExecStmts(b.stmts[..k], [Frame(b.id, [])] + frames, orc, h, fuel).r.out == Normal;
      Count(ExecBody(b, frames, orc, h, fuel).h, a) == Count(h, a) + if reached then 1 else 0
  {
    var inner := [Frame(b.id, [])] + frames;
    var x, y := b.stmts[..k], b.stmts[k + 1..];
    var d := b.stmts[k].body;
    var p := ExecStmts(x, inner, orc, h, fuel);
    var all := ExecStmts(b.stmts, inner, orc, h, fuel);
    assert b.stmts == x + ([b.stmts[k]] + y);
    ExecConcat(x, [b.stmts[k]] + y, inner, orc, h, fuel);
    QuietRun(x, inner, orc, h, fuel, a);
    DefersHeld(b.stmts, inner, orc, h, fuel);
    if p.r.out != Normal {
      LeaveQuietly(all, orc, a);
    } else {
      var held := [Frame(b.id, p.defers)] + inner[1..];
      assert ([b.stmts[k]] + y)[0] == b.stmts[k] && ([b.stmts[k]] + y)[1..] == y;
      assert all == ExecStmts(y, Hold(held, d), orc, p.r.h, p.r.fuel);
      RestRun(y, p.defers, d, Hold(held, d), orc, p.r.h, p.r.fuel, a);
      LeaveOnce(all, |p.defers|, orc, a);
    }
  }

  /** What follows the marked defer adds quiet defers only. */
  lemma {:induction false} RestRun(y: seq<Stmt>, before: seq<Body>, d: Body, frames: seq<Frame>, orc: Oracle, h: History,
                                   fuel: nat, a: nat)
    requires frames != [] && |before| < |frames[0].defers| && frames[0].defers[..|before| + 1] == before + [d]
    requires QuietStmts(y, a) && forall i :: 0 <= i < |frames[0].defers| && i != |before| ==> QuietBody(frames[0].defers[i], a)
    ensures var q := ExecStmts(y, frames, orc, h, fuel);
      && Count(q.r.h, a) == Count(h, a) && |before| < |q.defers| && q.defers[|before|] == d
      && forall i :: 0 <= i < |q.defers| && i != |before| ==> QuietBody(q.defers[i], a)
    decreases |y|
  {
    assert frames[0].defers[..|before| + 1][|before|] == d;
    if y != [] {
      match y[0]
      case Return(_, _) =>
      case Control(_, _, _) =>
      case Defer(body) =>
        var h1 := Hold(frames, body);
        assert h1[0].defers[..|before| + 1] == before + [d];
        RestRun(y[1..], before, d, h1, orc, h, fuel, a);
      case _ =>
        QuietStmtRun(y[0], frames, orc, h, fuel, a);
        var r := ExecStmt(y[0], frames, orc, h, fuel);
        if r.out == Normal {
          RestRun(y[1..], before, d, frames, orc, r.h, r.fuel, a);
        }
    }
  }

  lemma LeaveQuietly(p: Partial, orc: Oracle, a: nat)
    requires forall d :: d in p.defers ==> QuietBody(d, a)
    ensures Count(Unwind(p, orc).h, a) == Count(p.r.h, a)
  {
    match p.r.out
    case OutOfFuel =>
    case Normal => QuietBodiesRun(p.defers, orc, p.r.h, p.r.fuel, a);
    case Jumped(_, _, _) =>
      forall d | d in Reversed(p.defers)
        ensures QuietBody(d, a)
      {
        ReversedMembers(p.defers, d);
      }
      QuietBodiesRun(Reversed(p.defers), orc, p.r.h, p.r.fuel, a);
  }

  lemma LeaveOnce(p: Partial, k: nat, orc: Oracle, a: nat)
    requires k < |p.defers| && Marked(p.defers[k], a)
    requires forall i :: 0 <= i < |p.defers| && i != k ==> QuietBody(p.defers[i], a)
    requires forall d :: d in p.defers ==> Replayable(d)
    requires p.r.out != OutOfFuel && Unwind(p, orc).out != OutOfFuel
    ensures Count(Unwind(p, orc).h, a) == Count(p.r.h, a) + 1
  {
    if p.r.out == Normal {
      ReplaysEnd(p.defers, orc, p.r.h, p.r.fuel);
      OneAmong(p.defers, k, orc, p.r.h, p.r.fuel, a);
    } else {
      var n := |p.defers|;
      ReversedIndex(p.defers);
      forall d | d in Reversed(p.defers)
        ensures Replayable(d)
      {
        ReversedMembers(p.defers, d);
      }
      ReplaysEnd(Reversed(p.defers), orc, p.r.h, p.r.fuel);
      OneAmong(Reversed(p.defers), n - 1 - k, orc, p.r.h, p.r.fuel, a);
    }
  }

  lemma {:induction false} ReversedIndex(ds: seq<Body>)
    ensures forall i :: 0 <= i < |ds| ==> Reversed(ds)[i] == ds[|ds| - 1 - i]
  {
    if ds != [] {
      ReversedIndex(ds[1..]);
    }
  }

  /** The blocks of a replayed body on its own: it ends, or runs out of fuel. */
  lemma ReplaysEnd(ds: seq<Body>, orc: Oracle, h: History, fuel: nat)
    requires forall d :: d in ds ==> Replayable(d)
    ensures !ExecBodies(ds, orc, h, fuel).out.Jumped?
  {
    var g: Gen := RawGen.Gen([[], []], 1, 1, 0, map[]);
    var n := SimBodies(ds, g, EmitBodies(ds, g).blocks, orc, h, fuel);
  }
}
