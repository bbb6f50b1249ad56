/** What analysis writes next to the nodes of a body, and when it is right. */
module Annotations {
  import opened Options
  import opened Syntax
  import opened Defers
  import opened Growth

  /** For each body its parent and its defers; for each jump the defers to run; for each `break` and
      `continue` the loop it belongs to. */
  datatype Notes = Notes(
    parents: map<nat, Option<nat>>, bodyDefers: map<nat, seq<Body>>, siteDefers: map<nat, seq<Body>>, siteLoop: map<nat, Loop>)

  /** Right for code whose enclosing bodies, innermost first, are `frames`. */
  predicate AnnotatedStmts(t: Notes, ss: seq<Stmt>, frames: seq<Frame>, loops: seq<Loop>)
    requires frames != []
  {
    ss == [] || (AnnotatedStmt(t, ss[0], frames, loops) && AnnotatedStmts(t, ss[1..], StepFrames(ss[0], frames), loops))
  }

  predicate AnnotatedBody(t: Notes, b: Body, frames: seq<Frame>, loops: seq<Loop>) {
    && b.id in t.bodyDefers && t.bodyDefers[b.id] == Registered(b.stmts)
    && AnnotatedStmts(t, b.stmts, [Frame(b.id, [])] + frames, loops)
  }

  predicate AnnotatedStmt(t: Notes, s: Stmt, frames: seq<Frame>, loops: seq<Loop>)
    requires frames != []
  {
    match s
    case Eval(_) => true
    case Return(site, _) => site in t.siteDefers && t.siteDefers[site] == DefersUpTo(frames, None)
    case Control(site, _, name) =>
      var l := FindLoop(loops, name);
      && l.Some? && site in t.siteLoop && t.siteLoop[site] == l.value
      && site in t.siteDefers && t.siteDefers[site] == DefersUpTo(frames, Some(l.value.body))
    case While(loop, name, _, body) =>
      (name.Some? ==> FindLoop(loops, name).None?) && AnnotatedBody(t, body, frames, loops + [Loop(loop, name, body.id)])
    case If(main, elseIfs, otherwise) =>
      && AnnotatedClause(t, main, frames, loops)
      && AnnotatedClauses(t, elseIfs, frames, loops)
      && AnnotatedOtherwise(t, otherwise, frames, loops)
    case Defer(body) => AnnotatedBody(t, body, frames, loops)
  }

  predicate AnnotatedClause(t: Notes, c: Clause, frames: seq<Frame>, loops: seq<Loop>) {
    AnnotatedBody(t, c.body, frames, loops)
  }

  predicate AnnotatedClauses(t: Notes, cs: seq<Clause>, frames: seq<Frame>, loops: seq<Loop>) {
    cs == [] || (AnnotatedClause(t, cs[0], frames, loops) && AnnotatedClauses(t, cs[1..], frames, loops))
  }

  predicate AnnotatedOtherwise(t: Notes, o: Option<Body>, frames: seq<Frame>, loops: seq<Loop>) {
    match o
    case None => true
    case Some(b) => AnnotatedBody(t, b, frames, loops)
  }

  // ---------- notes on other nodes do not matter ----------

  ghost predicate AgreeOn(t: Notes, u: Notes, ids: set<nat>) {
    && (forall i :: i in ids && i in t.bodyDefers ==> i in u.bodyDefers && u.bodyDefers[i] == t.bodyDefers[i])
    && (forall i :: i in ids && i in t.siteDefers ==> i in u.siteDefers && u.siteDefers[i] == t.siteDefers[i])
    && (forall i :: i in ids && i in t.siteLoop ==> i in u.siteLoop && u.siteLoop[i] == t.siteLoop[i])
    && (forall i :: i in ids && i in t.parents ==> i in u.parents && u.parents[i] == t.parents[i])
  }

  lemma {:induction false} StmtsAgree(t: Notes, u: Notes, ss: seq<Stmt>, frames: seq<Frame>, loops: seq<Loop>)
    requires frames != [] && AnnotatedStmts(t, ss, frames, loops) && AgreeOn(t, u, StmtsIds(ss))
    ensures AnnotatedStmts(u, ss, frames, loops)
    decreases ss
  {
    if ss != [] {
      StmtAgree(t, u, ss[0], frames, loops);
      StmtsAgree(t, u, ss[1..], StepFrames(ss[0], frames), loops);
    }
  }

  lemma {:induction false} BodyAgree(t: Notes, u: Notes, b: Body, frames: seq<Frame>, loops: seq<Loop>)
    requires AnnotatedBody(t, b, frames, loops) && AgreeOn(t, u, BodyIds(b))
    ensures AnnotatedBody(u, b, frames, loops)
    decreases b
  {
    StmtsAgree(t, u, b.stmts, [Frame(b.id, [])] + frames, loops);
  }

  lemma {:induction false} StmtAgree(t: Notes, u: Notes, s: Stmt, frames: seq<Frame>, loops: seq<Loop>)
    requires frames != [] && AnnotatedStmt(t, s, frames, loops) && AgreeOn(t, u, StmtIds(s))
    ensures AnnotatedStmt(u, s, frames, loops)
    decreases s
  {
    match s
    case While(loop, name, _, body) => BodyAgree(t, u, body, frames, loops + [Loop(loop, name, body.id)]);
    case If(main, elseIfs, otherwise) =>
      ClauseAgree(t, u, main, frames, loops);
      ClausesAgree(t, u, elseIfs, frames, loops);
      OtherwiseAgree(t, u, otherwise, frames, loops);
    case Defer(body) => BodyAgree(t, u, body, frames, loops);
    case _ =>
  }

  lemma {:induction false} ClauseAgree(t: Notes, u: Notes, c: Clause, frames: seq<Frame>, loops: seq<Loop>)
    requires AnnotatedClause(t, c, frames, loops) && AgreeOn(t, u, ClauseIds(c))
    ensures AnnotatedClause(u, c, frames, loops)
    decreases c
  {
    BodyAgree(t, u, c.body, frames, loops);
  }

  lemma {:induction false} ClausesAgree(t: Notes, u: Notes, cs: seq<Clause>, frames: seq<Frame>, loops: seq<Loop>)
    requires AnnotatedClauses(t, cs, frames, loops) && AgreeOn(t, u, ClausesIds(cs))
    ensures AnnotatedClauses(u, cs, frames, loops)
    decreases cs
  {
    if cs != [] {
      ClauseAgree(t, u, cs[0], frames, loops);
      ClausesAgree(t, u, cs[1..], frames, loops);
    }
  }

  lemma {:induction false} OtherwiseAgree(t: Notes, u: Notes, o: Option<Body>, frames: seq<Frame>, loops: seq<Loop>)
    requires AnnotatedOtherwise(t, o, frames, loops) && AgreeOn(t, u, OtherwiseIds(o))
    ensures AnnotatedOtherwise(u, o, frames, loops)
    decreases o
  {
    if o.Some? {
      BodyAgree(t, u, o.value, frames, loops);
    }
  }

  // ---------- notes on a defer's body do not depend on where it is registered ----------

  /** A confined jump finds its loop among the inner loops, and stops before the outer bodies. */
  lemma FindInner(outer: seq<Loop>, inner: seq<Loop>, name: Option<string>)
    requires NamesDistinct(outer + inner) && FindLoop(inner, name).Some?
    ensures FindLoop(outer + inner, name) == FindLoop(inner, name)
  {
    var all := outer + inner;
    FindLoopSound(inner, name);
    FindLoopSound(all, name);
    var l := FindLoop(inner, name).value;
    assert l in all;
    if name.None? {
      FindLast(inner);
      assert all[|all| - 1] == inner[|inner| - 1];
    } else {
      var m := FindLoop(all, name).value;
      var i :| 0 <= i < |all| && all[i] == l;
      var j :| 0 <= j < |all| && all[j] == m;
    }
  }

  lemma FindLast(loops: seq<Loop>)
    requires FindLoop(loops, None).Some?
    ensures loops != [] && FindLoop(loops, None) == Some(loops[|loops| - 1])
  {
  }

  lemma {:induction false} DefersUpToInner(inner: seq<Frame>, outer: seq<Frame>, to: nat)
    requires to in FrameBodies(inner)
    ensures DefersUpTo(inner + outer, Some(to)) == DefersUpTo(inner, Some(to))
  {
    assert (inner + outer)[0] == inner[0] && (inner + outer)[1..] == inner[1..] + outer;
    if to != inner[0].body {
      DefersUpToInner(inner[1..], outer, to);
    }
  }

  lemma StepInner(s: Stmt, inner: seq<Frame>, outer: seq<Frame>)
    requires inner != []
    ensures StepFrames(s, inner + outer) == StepFrames(s, inner) + outer
  {
    assert (inner + outer)[0] == inner[0] && (inner + outer)[1..] == inner[1..] + outer;
  }

  lemma FindNoneInner(outer: seq<Loop>, inner: seq<Loop>, name: Option<string>)
    requires name.Some? && FindLoop(outer + inner, name).None?
    ensures FindLoop(inner, name).None?
  {
    FindLoopSound(outer + inner, name);
    FindLoopSound(inner, name);
    assert forall l :: l in inner ==> l in outer + inner;
  }

  // Below, the bodies and loops around the code are split: those outside the defer (`outer`,
  // `outerLoops`), and inside it those the code's own jumps cannot reach (`mid`) and can (`own`).

  lemma {:induction false} StmtsLocal(t: Notes, ss: seq<Stmt>, inner: seq<Frame>, outer: seq<Frame>,
                                     outerLoops: seq<Loop>, mid: seq<Loop>, own: seq<Loop>)
    requires inner != [] && AnnotatedStmts(t, ss, inner + outer, outerLoops + (mid + own)) && ConfinedStmts(ss, own, true)
    requires NamesDistinct(outerLoops + (mid + own)) && forall l :: l in own ==> l.body in FrameBodies(inner)
    ensures AnnotatedStmts(t, ss, inner, mid + own)
    decreases ss
  {
    if ss != [] {
      StmtLocal(t, ss[0], inner, outer, outerLoops, mid, own);
      StepInner(ss[0], inner, outer);
      StepFramesIds(ss[0], inner);
      StmtsLocal(t, ss[1..], StepFrames(ss[0], inner), outer, outerLoops, mid, own);
    }
  }

  lemma {:induction false} BodyLocal(t: Notes, b: Body, inner: seq<Frame>, outer: seq<Frame>,
                                     outerLoops: seq<Loop>, mid: seq<Loop>, own: seq<Loop>)
    requires AnnotatedBody(t, b, inner + outer, outerLoops + (mid + own)) && ConfinedBody(b, own, true)
    requires NamesDistinct(outerLoops + (mid + own)) && forall l :: l in own ==> l.body in FrameBodies(inner) + {b.id}
    ensures AnnotatedBody(t, b, inner, mid + own)
    decreases b
  {
    var inner1 := [Frame(b.id, [])] + inner;
    assert [Frame(b.id, [])] + (inner + outer) == inner1 + outer;
    assert FrameBodies(inner1) == FrameBodies(inner) + {b.id} by {
      assert inner1[0] in inner1;
      assert forall f :: f in inner ==> f in inner1;
    }
    StmtsLocal(t, b.stmts, inner1, outer, outerLoops, mid, own);
  }

  lemma {:induction false} StmtLocal(t: Notes, s: Stmt, inner: seq<Frame>, outer: seq<Frame>,
                                     outerLoops: seq<Loop>, mid: seq<Loop>, own: seq<Loop>)
    requires inner != [] && AnnotatedStmt(t, s, inner + outer, outerLoops + (mid + own)) && ConfinedStmt(s, own, true)
    requires NamesDistinct(outerLoops + (mid + own)) && forall l :: l in own ==> l.body in FrameBodies(inner)
    ensures AnnotatedStmt(t, s, inner, mid + own)
    decreases s
  {
    var all := outerLoops + (mid + own);
    match s
    case Eval(_) =>
    case Return(_, _) =>
    case Control(_, _, name) =>
      assert all == (outerLoops + mid) + own;
      FindInner(outerLoops + mid, own, name);
      NamesDistinctSuffix(outerLoops, mid + own);
      FindInner(mid, own, name);
      FindLoopSound(own, name);
      DefersUpToInner(inner, outer, FindLoop(own, name).value.body);
    case While(loop, name, _, body) =>
      var l := Loop(loop, name, body.id);
      NamesDistinctPush(all, l);
      if name.Some? {
        FindNoneInner(outerLoops, mid + own, name);
      }
      assert all + [l] == outerLoops + (mid + (own + [l]));
      assert mid + own + [l] == mid + (own + [l]);
      BodyLocal(t, body, inner, outer, outerLoops, mid, own + [l]);
    case If(main, elseIfs, otherwise) =>
      ClauseLocal(t, main, inner, outer, outerLoops, mid, own);
      ClausesLocal(t, elseIfs, inner, outer, outerLoops, mid, own);
      OtherwiseLocal(t, otherwise, inner, outer, outerLoops, mid, own);
    case Defer(body) =>
      assert (mid + own) + [] == mid + own;
      BodyLocal(t, body, inner, outer, outerLoops, mid + own, []);
  }

  lemma {:induction false} ClauseLocal(t: Notes, c: Clause, inner: seq<Frame>, outer: seq<Frame>,
                                     outerLoops: seq<Loop>, mid: seq<Loop>, own: seq<Loop>)
    requires AnnotatedClause(t, c, inner + outer, outerLoops + (mid + own)) && ConfinedClause(c, own, true)
    requires NamesDistinct(outerLoops + (mid + own)) && forall l :: l in own ==> l.body in FrameBodies(inner)
    ensures AnnotatedClause(t, c, inner, mid + own)
    decreases c
  {
    BodyLocal(t, c.body, inner, outer, outerLoops, mid, own);
  }

  lemma {:induction false} ClausesLocal(t: Notes, cs: seq<Clause>, inner: seq<Frame>, outer: seq<Frame>,
                                     outerLoops: seq<Loop>, mid: seq<Loop>, own: seq<Loop>)
    requires AnnotatedClauses(t, cs, inner + outer, outerLoops + (mid + own)) && ConfinedClauses(cs, own, true)
    requires NamesDistinct(outerLoops + (mid + own)) && forall l :: l in own ==> l.body in FrameBodies(inner)
    ensures AnnotatedClauses(t, cs, inner, mid + own)
    decreases cs
  {
    if cs != [] {
      ClauseLocal(t, cs[0], inner, outer, outerLoops, mid, own);
      ClausesLocal(t, cs[1..], inner, outer, outerLoops, mid, own);
    }
  }

  lemma {:induction false} OtherwiseLocal(t: Notes, o: Option<Body>, inner: seq<Frame>, outer: seq<Frame>,
                                     outerLoops: seq<Loop>, mid: seq<Loop>, own: seq<Loop>)
    requires AnnotatedOtherwise(t, o, inner + outer, outerLoops + (mid + own)) && ConfinedOtherwise(o, own, true)
    requires NamesDistinct(outerLoops + (mid + own)) && forall l :: l in own ==> l.body in FrameBodies(inner)
    ensures AnnotatedOtherwise(t, o, inner, mid + own)
    decreases o
  {
    if o.Some? {
      BodyLocal(t, o.value, inner, outer, outerLoops, mid, own);
    }
  }

  lemma NamesDistinctSuffix(a: seq<Loop>, b: seq<Loop>)
    requires NamesDistinct(a + b)
    ensures NamesDistinct(b)
  {
    forall i, j | 0 <= i < j < |b| && b[i].name.Some?
      ensures b[i].name != b[j].name
    {
      assert (a + b)[|a| + i] == b[i] && (a + b)[|a| + j] == b[j];
    }
  }

  /** The notes on a defer's body, made where it was registered, serve wherever it is replayed. */
  lemma DeferLocal(t: Notes, d: Body, frames: seq<Frame>, loops: seq<Loop>)
    requires AnnotatedBody(t, d, frames, loops) && Replayable(d) && NamesDistinct(loops)
    ensures AnnotatedBody(t, d, [], [])
  {
    assert [] + frames == frames && loops + ([] + []) == loops;
    BodyLocal(t, d, [], frames, loops, [], []);
  }
}
