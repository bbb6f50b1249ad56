/** Semantic analysis of a body: the scope and loop stacks, registration of defers, and the defers
    and loop attached to every jump. */
module Analysis {
  import opened Options
  import opened Sequences
  import opened Syntax
  import opened Defers
  import opened Growth
  import opened Annotations

  // ---------- what analysis accepts ----------

  /** Every `break` and `continue` finds a loop, and no loop reuses the name of one it is inside of.
      Jumps out of a defer's body are not ruled out. */
  predicate ResolvesStmts(ss: seq<Stmt>, loops: seq<Loop>) {
    ss == [] || (ResolvesStmt(ss[0], loops) && ResolvesStmts(ss[1..], loops))
  }

  predicate ResolvesBody(b: Body, loops: seq<Loop>) {
    ResolvesStmts(b.stmts, loops)
  }

  predicate ResolvesStmt(s: Stmt, loops: seq<Loop>) {
    match s
    case Eval(_) => true
    case Return(_, _) => true
    case Control(_, _, name) => FindLoop(loops, name).Some?
    case While(loop, name, _, body) =>
      (name.Some? ==> FindLoop(loops, name).None?) && ResolvesBody(body, loops + [Loop(loop, name, body.id)])
    case If(main, elseIfs, otherwise) =>
      ResolvesClause(main, loops) && ResolvesClauses(elseIfs, loops) && ResolvesOtherwise(otherwise, loops)
    case Defer(body) => ResolvesBody(body, loops)
  }

  predicate ResolvesClause(c: Clause, loops: seq<Loop>) {
    ResolvesBody(c.body, loops)
  }

  predicate ResolvesClauses(cs: seq<Clause>, loops: seq<Loop>) {
    cs == [] || (ResolvesClause(cs[0], loops) && ResolvesClauses(cs[1..], loops))
  }

  predicate ResolvesOtherwise(o: Option<Body>, loops: seq<Loop>) {
    match o
    case None => true
    case Some(b) => ResolvesBody(b, loops)
  }

  // ---------- what is accepted, and keeps its jumps inside its defers, is confined ----------

  lemma {:induction false} StmtsConfined(ss: seq<Stmt>, outer: seq<Loop>, own: seq<Loop>, inDefer: bool)
    requires ResolvesStmts(ss, outer + own) && StaysStmts(ss, own, inDefer) && (!inDefer ==> outer == [])
    ensures ConfinedStmts(ss, own, inDefer)
    decreases StmtsWeight(ss), 1
  {
    if ss != [] {
      StmtConfined(ss[0], outer, own, inDefer);
      StmtsConfined(ss[1..], outer, own, inDefer);
    }
  }

  lemma {:induction false} BodyConfined(b: Body, outer: seq<Loop>, own: seq<Loop>, inDefer: bool)
    requires ResolvesBody(b, outer + own) && StaysBody(b, own, inDefer) && (!inDefer ==> outer == [])
    ensures ConfinedBody(b, own, inDefer)
    decreases BodyWeight(b), 0
  {
    StmtsConfined(b.stmts, outer, own, inDefer);
  }

  lemma {:induction false} StmtConfined(s: Stmt, outer: seq<Loop>, own: seq<Loop>, inDefer: bool)
    requires ResolvesStmt(s, outer + own) && StaysStmt(s, own, inDefer) && (!inDefer ==> outer == [])
    ensures ConfinedStmt(s, own, inDefer)
    decreases StmtWeight(s), 0
  {
    match s
    case Control(_, _, name) =>
      assert outer == [] ==> outer + own == own;
    case While(loop, name, _, body) =>
      if name.Some? {
        FindNoneInner(outer, own, name);
      }
      assert (outer + own) + [Loop(loop, name, body.id)] == outer + (own + [Loop(loop, name, body.id)]);
      BodyConfined(body, outer, own + [Loop(loop, name, body.id)], inDefer);
    case If(main, elseIfs, otherwise) =>
      assert BodyWeight(main.body) <= ClauseWeight(main) < StmtWeight(s);
      BodyConfined(main.body, outer, own, inDefer);
      ClausesConfined(elseIfs, outer, own, inDefer);
      if otherwise.Some? {
        assert BodyWeight(otherwise.value) <= OtherwiseWeight(otherwise) < StmtWeight(s);
        BodyConfined(otherwise.value, outer, own, inDefer);
      }
    case Defer(body) =>
      assert (outer + own) + [] == outer + own;
      BodyConfined(body, outer + own, [], true);
    case _ =>
  }

  lemma {:induction false} ClausesConfined(cs: seq<Clause>, outer: seq<Loop>, own: seq<Loop>, inDefer: bool)
    requires ResolvesClauses(cs, outer + own) && StaysClauses(cs, own, inDefer) && (!inDefer ==> outer == [])
    ensures ConfinedClauses(cs, own, inDefer)
    decreases ClausesWeight(cs), 1
  {
    if cs != [] {
      assert BodyWeight(cs[0].body) <= ClauseWeight(cs[0]) <= ClausesWeight(cs);
      BodyConfined(cs[0].body, outer, own, inDefer);
      ClausesConfined(cs[1..], outer, own, inDefer);
    }
  }

  // ---------- the scope stack as a chain of frames ----------

  /** Innermost first; the walk along parents ends at the function's own scope, which has no body. */
  function FramesOf(scopes: seq<Option<nat>>, t: Notes): seq<Frame> {
    if scopes == [] then []
    else
      var top := scopes[|scopes| - 1];
      if top.Some? && top.value in t.bodyDefers then
        [Frame(top.value, t.bodyDefers[top.value])] + FramesOf(scopes[..|scopes| - 1], t)
      else []
  }

  function FramesAfter(ss: seq<Stmt>, frames: seq<Frame>): (r: seq<Frame>)
    requires frames != []
    ensures r != []
  {
    if ss == [] then frames else FramesAfter(ss[1..], StepFrames(ss[0], frames))
  }

  lemma {:induction false} AnnotatedSnoc(t: Notes, ss: seq<Stmt>, s: Stmt, frames: seq<Frame>, loops: seq<Loop>)
    requires frames != [] && AnnotatedStmts(t, ss, frames, loops)
    requires AnnotatedStmt(t, s, FramesAfter(ss, frames), loops)
    ensures AnnotatedStmts(t, ss + [s], frames, loops)
    decreases |ss|
  {
    if ss == [] {
      assert ss + [s] == [s] && [s][1..] == [];
    } else {
      assert (ss + [s])[0] == ss[0] && (ss + [s])[1..] == ss[1..] + [s];
      AnnotatedSnoc(t, ss[1..], s, StepFrames(ss[0], frames), loops);
    }
  }

  lemma {:induction false} FramesAfterSnoc(ss: seq<Stmt>, s: Stmt, frames: seq<Frame>)
    requires frames != []
    ensures FramesAfter(ss + [s], frames) == StepFrames(s, FramesAfter(ss, frames))
    decreases |ss|
  {
    if ss == [] {
      assert ss + [s] == [s] && [s][1..] == [];
    } else {
      assert (ss + [s])[0] == ss[0] && (ss + [s])[1..] == ss[1..] + [s];
      FramesAfterSnoc(ss[1..], s, StepFrames(ss[0], frames));
    }
  }

  lemma {:induction false} FramesAfterRegistered(ss: seq<Stmt>, frames: seq<Frame>)
    requires frames != []
    ensures var r := FramesAfter(ss, frames);
      r[0] == Frame(frames[0].body, frames[0].defers + Registered(ss)) && r[1..] == frames[1..]
    decreases |ss|
  {
    if ss != [] {
      var frames1 := StepFrames(ss[0], frames);
      FramesAfterRegistered(ss[1..], frames1);
      if ss[0].Defer? {
        Associate(frames[0].defers, [ss[0].body], Registered(ss[1..]));
        assert frames1[1..] == frames[1..];
      } else {
        assert frames1 == frames && Registered(ss) == Registered(ss[1..]);
      }
    } else {
      assert frames[0].defers + [] == frames[0].defers;
    }
  }

  lemma {:induction false} FramesAgree(scopes: seq<Option<nat>>, t: Notes, u: Notes)
    requires forall i :: 0 <= i < |scopes| && scopes[i].Some? ==> var b := scopes[i].value;
      b in t.bodyDefers && b in u.bodyDefers && t.bodyDefers[b] == u.bodyDefers[b]
    ensures FramesOf(scopes, t) == FramesOf(scopes, u)
    decreases |scopes|
  {
    if scopes != [] {
      FramesAgree(scopes[..|scopes| - 1], t, u);
    }
  }

  function Below(scopes: seq<Option<nat>>, i: nat): Option<nat>
    requires i <= |scopes|
  {
    if i == 0 then None else scopes[i - 1]
  }

  /** Every scope but the first belongs to a body, all bodies differ, and a body's parent is the body
      of the scope below. */
  ghost predicate Chain(scopes: seq<Option<nat>>, t: Notes) {
    scopes == [] ||
    var below, top := scopes[..|scopes| - 1], scopes[|scopes| - 1];
    && Chain(below, t)
    && (below != [] ==> top.Some?)
    && (top.Some? ==>
          && top !in below && top.value in t.bodyDefers && top.value in t.parents
          && t.parents[top.value] == Below(below, |below|))
  }

  lemma {:induction false} ChainAgree(scopes: seq<Option<nat>>, t: Notes, u: Notes)
    requires Chain(scopes, t)
    requires forall s <- scopes :: s.Some? ==> s.value in u.bodyDefers && s.value in u.parents
    requires forall s <- scopes :: s.Some? && s.value in t.parents ==> u.parents[s.value] == t.parents[s.value]
    ensures Chain(scopes, u)
    decreases |scopes|
  {
    if scopes != [] {
      ChainAgree(scopes[..|scopes| - 1], t, u);
      assert scopes[|scopes| - 1] in scopes;
    }
  }

  /** The scopes that are open have a parent and a list of defers. */
  lemma {:induction false} ChainKnown(scopes: seq<Option<nat>>, t: Notes, s: Option<nat>)
    requires Chain(scopes, t) && s in scopes && s.Some?
    ensures s.value in t.bodyDefers && s.value in t.parents
    decreases |scopes|
  {
    if s != scopes[|scopes| - 1] {
      ChainKnown(scopes[..|scopes| - 1], t, s);
    }
  }

  lemma {:induction false} ChainAt(scopes: seq<Option<nat>>, t: Notes, k: nat)
    requires Chain(scopes, t) && k <= |scopes|
    ensures Chain(scopes[..k], t)
    decreases |scopes|
  {
    if k < |scopes| {
      var below := scopes[..|scopes| - 1];
      ChainAt(below, t, k);
      assert scopes[..k] == below[..k];
    } else {
      assert scopes[..k] == scopes;
    }
  }

  /** Notes on jumps do not matter to the chain. */
  lemma SameChain(scopes: seq<Option<nat>>, t: Notes, u: Notes)
    requires Chain(scopes, t) && u.bodyDefers == t.bodyDefers && u.parents == t.parents
    ensures Chain(scopes, u) && FramesOf(scopes, u) == FramesOf(scopes, t)
  {
    forall x | x in scopes && x.Some? ensures x.value in t.bodyDefers && x.value in t.parents {
      ChainKnown(scopes, t, x);
    }
    ChainAgree(scopes, t, u);
    FramesAgree(scopes, t, u);
  }

  function WithParent(t: Notes, b: nat, parent: Option<nat>): Notes {
    t.(parents := t.parents[b := parent])
  }

  lemma ChainPush(scopes: seq<Option<nat>>, t: Notes, b: nat)
    requires Chain(scopes, t) && scopes != [] && Some(b) !in scopes && b in t.bodyDefers && t.bodyDefers[b] == []
    ensures var u := WithParent(t, b, scopes[|scopes| - 1]);
      Chain(scopes + [Some(b)], u) && FramesOf(scopes + [Some(b)], u) == [Frame(b, [])] + FramesOf(scopes, t)
  {
    var u := WithParent(t, b, scopes[|scopes| - 1]);
    var s := scopes + [Some(b)];
    assert s[..|s| - 1] == scopes;
    forall x | x in scopes && x.Some? ensures x.value in t.bodyDefers && x.value in t.parents && x.value != b {
      ChainKnown(scopes, t, x);
    }
    ChainAgree(scopes, t, u);
    FramesAgree(scopes, t, u);
  }

  lemma ChainPop(scopes: seq<Option<nat>>, t: Notes)
    requires Chain(scopes, t) && scopes != []
    ensures Chain(scopes[..|scopes| - 1], t)
    ensures |scopes| > 1 ==> scopes[|scopes| - 1].Some? && var b := scopes[|scopes| - 1].value;
      b in t.bodyDefers && FramesOf(scopes, t) == [Frame(b, t.bodyDefers[b])] + FramesOf(scopes[..|scopes| - 1], t)
  {
  }

  function WithDefer(t: Notes, b: nat, d: Body): Notes
    requires b in t.bodyDefers
  {
    t.(bodyDefers := t.bodyDefers[b := t.bodyDefers[b] + [d]])
  }

  lemma ChainDefer(scopes: seq<Option<nat>>, t: Notes, d: Body)
    requires Chain(scopes, t) && |scopes| > 1
    ensures var b := scopes[|scopes| - 1].value;
      && FramesOf(scopes, t) != [] && b in t.bodyDefers && Chain(scopes, WithDefer(t, b, d))
      && FramesOf(scopes, WithDefer(t, b, d)) == Hold(FramesOf(scopes, t), d)
  {
    ChainPop(scopes, t);
    var b := scopes[|scopes| - 1].value;
    var u := WithDefer(t, b, d);
    var below := scopes[..|scopes| - 1];
    forall x | x in scopes && x.Some? ensures x.value in t.bodyDefers && x.value in t.parents {
      ChainKnown(scopes, t, x);
    }
    ChainAgree(scopes, t, u);
    forall i | 0 <= i < |below| && below[i].Some? ensures below[i].value != b && below[i].value in t.bodyDefers {
      assert below[i] in below && scopes[i] in scopes;
    }
    FramesAgree(below, t, u);
  }

  /** The walk along the parents from the `k`-th scope down, with what was collected before. */
  function WalkOn(scopes: seq<Option<nat>>, t: Notes, k: nat, to: Option<nat>, done: seq<Body>): seq<Body>
    requires k <= |scopes|
    decreases k
  {
    var b := Below(scopes, k);
    if b.None? || b.value !in t.bodyDefers then done
    else
      var more := done + Reversed(t.bodyDefers[b.value]);
      if b == to then more else WalkOn(scopes, t, k - 1, to, more)
  }

  lemma DefersAt(scopes: seq<Option<nat>>, t: Notes, k: nat, to: Option<nat>)
    requires Chain(scopes, t) && 0 < k <= |scopes| && scopes[k - 1].Some?
    ensures scopes[k - 1].value in t.bodyDefers
    ensures DefersUpTo(FramesOf(scopes[..k], t), to) ==
            Reversed(t.bodyDefers[scopes[k - 1].value])
            + if scopes[k - 1] == to then [] else DefersUpTo(FramesOf(scopes[..k - 1], t), to)
  {
    ChainAt(scopes, t, k);
    assert scopes[..k][..k - 1] == scopes[..k - 1] && scopes[..k][k - 1] == scopes[k - 1];
    var frames := FramesOf(scopes[..k], t);
    var rest := FramesOf(scopes[..k - 1], t);
    assert frames == [Frame(scopes[k - 1].value, t.bodyDefers[scopes[k - 1].value])] + rest;
    assert frames[1..] == rest;
  }

  /** What a step of the walk finds. */
  lemma WalkTurn(scopes: seq<Option<nat>>, t: Notes, k: nat, to: Option<nat>, done: seq<Body>)
    requires Chain(scopes, t) && 0 < k <= |scopes| && scopes[k - 1].Some?
    ensures scopes[k - 1].value in t.bodyDefers
    ensures var more := done + Reversed(t.bodyDefers[scopes[k - 1].value]);
      WalkOn(scopes, t, k, to, done) == if scopes[k - 1] == to then more else WalkOn(scopes, t, k - 1, to, more)
  {
    ChainKnown(scopes, t, scopes[k - 1]);
  }

  lemma {:induction false} WalkOnIs(scopes: seq<Option<nat>>, t: Notes, k: nat, to: Option<nat>, done: seq<Body>)
    requires Chain(scopes, t) && k <= |scopes|
    ensures WalkOn(scopes, t, k, to, done) == done + DefersUpTo(FramesOf(scopes[..k], t), to)
    decreases k
  {
    if k > 0 && scopes[k - 1].Some? {
      DefersAt(scopes, t, k, to);
      WalkTurn(scopes, t, k, to, done);
      var own := Reversed(t.bodyDefers[scopes[k - 1].value]);
      var rest := DefersUpTo(FramesOf(scopes[..k - 1], t), to);
      if scopes[k - 1] == to {
        assert own + [] == own;
      } else {
        WalkOnIs(scopes, t, k - 1, to, done + own);
        Associate(done, own, rest);
      }
    } else {
      assert done + [] == done;
    }
  }

  /** What a step of the walk finds. */
  lemma WalkStep(scopes: seq<Option<nat>>, t: Notes, k: nat)
    requires Chain(scopes, t) && k <= |scopes| && Below(scopes, k).Some?
    ensures var b := Below(scopes, k).value; k > 0 && b in t.bodyDefers && b in t.parents && t.parents[b] == Below(scopes, k - 1)
  {
    ChainAt(scopes, t, k);
    assert scopes[..k][k - 1] == scopes[k - 1] && scopes[..k][..k - 1] == scopes[..k - 1];
    assert Below(scopes[..k - 1], k - 1) == Below(scopes, k - 1);
  }

  /** The first `i` statements have been analysed. */
  ghost predicate Analyzed(t: Notes, ss: seq<Stmt>, i: nat, frames: seq<Frame>, loops0: seq<Loop>, failed0: bool,
                           loops: seq<Loop>, failed: bool)
    requires i <= |ss| && frames != []
  {
    && (!failed ==> loops == loops0 && AnnotatedStmts(t, ss[..i], frames, loops0))
    && (failed0 ==> failed)
    && (!failed0 ==> (ResolvesStmts(ss, loops0) <==> !failed && ResolvesStmts(ss[i..], loops0)))
  }

  lemma AnalyzedStep(start: Notes, before: Notes, after: Notes, b: Body, i: nat, frames: seq<Frame>, loops0: seq<Loop>,
                     failed0: bool, loops1: seq<Loop>, failed1: bool, loops2: seq<Loop>, failed2: bool)
    requires i < |b.stmts| && frames != [] && DistinctBody(b) && KeptOutside(start, before, BodyIds(b))
    requires Analyzed(before, b.stmts, i, frames, loops0, failed0, loops1, failed1)
    requires KeptOutside(before, after, StmtIds(b.stmts[i]) + {b.id})
    requires !failed2 ==> loops2 == loops1 && AnnotatedStmt(after, b.stmts[i], FramesAfter(b.stmts[..i], frames), loops1)
    requires failed2 == (failed1 || !ResolvesStmt(b.stmts[i], loops1))
    ensures Analyzed(after, b.stmts, i + 1, frames, loops0, failed0, loops2, failed2)
    ensures FramesAfter(b.stmts[..i + 1], frames) == StepFrames(b.stmts[i], FramesAfter(b.stmts[..i], frames))
    ensures KeptOutside(start, after, BodyIds(b))
  {
    var s := b.stmts[i];
    var done := b.stmts[..i];
    PickStmt(b.stmts, i);
    KeptTrans(start, before, after, StmtIds(s) + {b.id}, BodyIds(b));
    assert b.stmts[..i + 1] == done + [s];
    FramesAfterSnoc(done, s, frames);
    if !failed2 {
      KeptAgree(before, after, StmtIds(s) + {b.id}, StmtsIds(done));
      StmtsAgree(before, after, done, frames, loops0);
      AnnotatedSnoc(after, done, s, frames, loops0);
    }
  }

  lemma PushedScopeIds(scopes: seq<Option<nat>>, id: nat, bodyIds: set<nat>, stmtIds: set<nat>)
    requires bodyIds !! ScopeIds(scopes) && stmtIds <= bodyIds && id !in stmtIds
    ensures stmtIds !! ScopeIds(scopes + [Some(id)])
  {
  }

  function ScopeIds(scopes: seq<Option<nat>>): set<nat> {
    set s | s in scopes && s.Some? :: s.value
  }

  lemma TopNotIn(scopes: seq<Option<nat>>, ids: set<nat>)
    requires scopes != [] && scopes[|scopes| - 1].Some? && ids !! ScopeIds(scopes)
    ensures scopes[|scopes| - 1].value !in ids
  {
    assert scopes[|scopes| - 1] in scopes;
  }

  /** Emptying the defers of a body that is not open. */
  lemma EmptyDefers(scopes: seq<Option<nat>>, t: Notes, b: nat)
    requires Chain(scopes, t) && b !in ScopeIds(scopes)
    ensures var u := t.(bodyDefers := t.bodyDefers[b := []]); Chain(scopes, u) && FramesOf(scopes, u) == FramesOf(scopes, t)
    ensures Some(b) !in scopes
  {
    var u := t.(bodyDefers := t.bodyDefers[b := []]);
    assert Some(b) in scopes ==> b in ScopeIds(scopes);
    forall x | x in scopes && x.Some? ensures x.value in t.bodyDefers && x.value in t.parents && x.value != b {
      ChainKnown(scopes, t, x);
    }
    ChainAgree(scopes, t, u);
    FramesAgree(scopes, t, u);
  }

  /** Notes on nodes other than `ids` are as before. */
  ghost predicate KeptOutside(t: Notes, u: Notes, ids: set<nat>) {
    && (forall i :: i !in ids && i in t.bodyDefers ==> i in u.bodyDefers && u.bodyDefers[i] == t.bodyDefers[i])
    && (forall i :: i !in ids && i in t.siteDefers ==> i in u.siteDefers && u.siteDefers[i] == t.siteDefers[i])
    && (forall i :: i !in ids && i in t.siteLoop ==> i in u.siteLoop && u.siteLoop[i] == t.siteLoop[i])
    && (forall i :: i !in ids && i in t.parents ==> i in u.parents && u.parents[i] == t.parents[i])
  }

  lemma KeptTrans(t: Notes, u: Notes, v: Notes, some: set<nat>, ids: set<nat>)
    requires KeptOutside(t, u, ids) && KeptOutside(u, v, some) && some <= ids
    ensures KeptOutside(t, v, ids)
  {
  }

  lemma KeptAgree(t: Notes, u: Notes, ids: set<nat>, others: set<nat>)
    requires KeptOutside(t, u, ids) && ids !! others
    ensures AgreeOn(t, u, others)
  {
  }

  lemma {:induction false} PickStmt(ss: seq<Stmt>, i: nat)
    requires DistinctStmts(ss) && i < |ss|
    ensures DistinctStmt(ss[i]) && StmtIds(ss[i]) <= StmtsIds(ss) && StmtsIds(ss[..i]) <= StmtsIds(ss)
    ensures StmtsIds(ss[..i]) !! StmtIds(ss[i])
    ensures StmtWeight(ss[i]) <= StmtsWeight(ss)
    ensures ss[i..] != [] && ss[i..][0] == ss[i] && ss[i..][1..] == ss[i + 1..]
    decreases i
  {
    if i > 0 {
      PickStmt(ss[1..], i - 1);
      assert ss[..i][1..] == ss[1..][..i - 1] && ss[..i][0] == ss[0];
    }
  }

  lemma {:induction false} PickClause(cs: seq<Clause>, i: nat)
    requires DistinctClauses(cs) && i < |cs|
    ensures DistinctClause(cs[i]) && ClauseIds(cs[i]) <= ClausesIds(cs) && ClausesIds(cs[..i]) <= ClausesIds(cs)
    ensures ClausesIds(cs[..i]) !! ClauseIds(cs[i])
    ensures ClauseWeight(cs[i]) <= ClausesWeight(cs)
    ensures cs[i..] != [] && cs[i..][0] == cs[i] && cs[i..][1..] == cs[i + 1..]
    decreases i
  {
    if i > 0 {
      PickClause(cs[1..], i - 1);
      assert cs[..i][1..] == cs[1..][..i - 1] && cs[..i][0] == cs[0];
    }
  }

  lemma {:induction false} AnnotatedClausesSnoc(t: Notes, cs: seq<Clause>, c: Clause, frames: seq<Frame>, loops: seq<Loop>)
    requires AnnotatedClauses(t, cs, frames, loops) && AnnotatedClause(t, c, frames, loops)
    ensures AnnotatedClauses(t, cs + [c], frames, loops)
    decreases |cs|
  {
    if cs == [] {
      assert cs + [c] == [c] && [c][1..] == [];
    } else {
      assert (cs + [c])[0] == cs[0] && (cs + [c])[1..] == cs[1..] + [c];
      AnnotatedClausesSnoc(t, cs[1..], c, frames, loops);
    }
  }

  ghost predicate AnalyzedClauses(t: Notes, cs: seq<Clause>, i: nat, frames: seq<Frame>, loops0: seq<Loop>, failed0: bool,
                                  loops: seq<Loop>, failed: bool)
    requires i <= |cs|
  {
    && (!failed ==> loops == loops0 && AnnotatedClauses(t, cs[..i], frames, loops0))
    && (failed0 ==> failed)
    && (!failed0 ==> (ResolvesClauses(cs, loops0) <==> !failed && ResolvesClauses(cs[i..], loops0)))
  }

  lemma AnalyzedClausesStep(before: Notes, after: Notes, cs: seq<Clause>, i: nat, frames: seq<Frame>, loops0: seq<Loop>,
                            failed0: bool, loops1: seq<Loop>, failed1: bool, loops2: seq<Loop>, failed2: bool)
    requires i < |cs| && DistinctClauses(cs)
    requires AnalyzedClauses(before, cs, i, frames, loops0, failed0, loops1, failed1)
    requires KeptOutside(before, after, ClauseIds(cs[i]))
    requires !failed2 ==> loops2 == loops1 && AnnotatedClause(after, cs[i], frames, loops1)
    requires failed2 == (failed1 || !ResolvesClause(cs[i], loops1))
    ensures AnalyzedClauses(after, cs, i + 1, frames, loops0, failed0, loops2, failed2)
  {
    PickClause(cs, i);
    assert cs[..i + 1] == cs[..i] + [cs[i]];
    if !failed2 {
      KeptAgree(before, after, ClauseIds(cs[i]), ClausesIds(cs[..i]));
      ClausesAgree(before, after, cs[..i], frames, loops0);
      AnnotatedClausesSnoc(after, cs[..i], cs[i], frames, loops0);
    }
  }

  lemma PoppedPrefix(outer: seq<Loop>, inner: seq<Loop>, l: Loop)
    requires inner <= outer + [l]
    ensures inner != [] ==> inner[..|inner| - 1] <= outer && (inner == outer + [l] ==> inner[..|inner| - 1] == outer)
  {
  }

  /** All branches have been analysed. */
  lemma ClausesDone(t: Notes, cs: seq<Clause>, frames: seq<Frame>, loops0: seq<Loop>, failed0: bool, loops: seq<Loop>,
                    failed: bool)
    requires AnalyzedClauses(t, cs, |cs|, frames, loops0, failed0, loops, failed)
    ensures !failed ==> loops == loops0 && AnnotatedClauses(t, cs, frames, loops0)
    ensures failed == (failed0 || !ResolvesClauses(cs, loops0))
  {
    assert cs[..|cs|] == cs && cs[|cs|..] == [];
  }

  /** All statements of the innermost open body have been analysed. */
  lemma BodyDone(scopes: seq<Option<nat>>, t: Notes, b: Body, frames: seq<Frame>, loops0: seq<Loop>, failed0: bool,
                 loops: seq<Loop>, failed: bool)
    requires Chain(scopes, t) && |scopes| > 1 && scopes[|scopes| - 1] == Some(b.id)
    requires FramesOf(scopes, t) == FramesAfter(b.stmts, [Frame(b.id, [])] + frames)
    requires Analyzed(t, b.stmts, |b.stmts|, [Frame(b.id, [])] + frames, loops0, failed0, loops, failed)
    ensures FramesOf(scopes[..|scopes| - 1], t) == frames
    ensures !failed ==> loops == loops0 && AnnotatedBody(t, b, frames, loops0)
    ensures failed == (failed0 || !ResolvesBody(b, loops0))
  {
    assert b.stmts[..|b.stmts|] == b.stmts && b.stmts[|b.stmts|..] == [];
    FramesAfterRegistered(b.stmts, [Frame(b.id, [])] + frames);
    ChainPop(scopes, t);
    var rest := FramesOf(scopes[..|scopes| - 1], t);
    var all := FramesOf(scopes, t);
    assert all == [Frame(b.id, t.bodyDefers[b.id])] + rest;
    assert all[1..] == rest;
    assert ([Frame(b.id, [])] + frames)[1..] == frames;
    assert [] + Registered(b.stmts) == Registered(b.stmts);
  }

  lemma IfDone(afterMain: Notes, afterElseIfs: Notes, t: Notes, main: Clause, elseIfs: seq<Clause>, otherwise: Option<Body>,
               frames: seq<Frame>, loops: seq<Loop>)
    requires frames != [] && DistinctStmt(If(main, elseIfs, otherwise))
    requires AnnotatedClause(afterMain, main, frames, loops)
    requires AnnotatedClauses(afterElseIfs, elseIfs, frames, loops) && KeptOutside(afterMain, afterElseIfs, ClausesIds(elseIfs))
    requires AnnotatedOtherwise(t, otherwise, frames, loops) && KeptOutside(afterElseIfs, t, OtherwiseIds(otherwise))
    ensures AnnotatedStmt(t, If(main, elseIfs, otherwise), frames, loops)
  {
    KeptAgree(afterMain, afterElseIfs, ClausesIds(elseIfs), ClauseIds(main));
    ClauseAgree(afterMain, afterElseIfs, main, frames, loops);
    KeptAgree(afterElseIfs, t, OtherwiseIds(otherwise), ClauseIds(main));
    ClauseAgree(afterElseIfs, t, main, frames, loops);
    KeptAgree(afterElseIfs, t, OtherwiseIds(otherwise), ClausesIds(elseIfs));
    ClausesAgree(afterElseIfs, t, elseIfs, frames, loops);
  }

  /** Registering a defer writes to the enclosing body only. */
  lemma DeferDone(scopes: seq<Option<nat>>, t: Notes, u: Notes, v: Notes, d: Body, frames: seq<Frame>, loops: seq<Loop>)
    requires Chain(scopes, u) && |scopes| > 1 && scopes[|scopes| - 1].Some? && BodyIds(d) !! ScopeIds(scopes)
    requires KeptOutside(t, u, BodyIds(d))
    requires scopes[|scopes| - 1].value in u.bodyDefers && v == WithDefer(u, scopes[|scopes| - 1].value, d)
    ensures KeptOutside(t, v, BodyIds(d) + {scopes[|scopes| - 1].value})
    ensures AnnotatedBody(u, d, frames, loops) ==> AnnotatedBody(v, d, frames, loops)
  {
    TopNotIn(scopes, BodyIds(d));
    assert KeptOutside(u, v, {scopes[|scopes| - 1].value});
    KeptAgree(u, v, {scopes[|scopes| - 1].value}, BodyIds(d));
    if AnnotatedBody(u, d, frames, loops) {
      BodyAgree(u, v, d, frames, loops);
    }
  }

  lemma FramesOpen(scopes: seq<Option<nat>>, t: Notes)
    requires Chain(scopes, t) && |scopes| > 1
    ensures FramesOf(scopes, t) != [] && scopes[|scopes| - 1].Some?
  {
  }

  class SemaModule {
    var scopes: seq<Option<nat>>   // the body of each open scope
    var loops: seq<Loop>
    var notes: Notes
    var failed: bool

    ghost predicate Valid()
      reads this
    {
      Chain(scopes, notes) && NamesDistinct(loops)
    }

    /** Every open loop has its body open, or about to be opened as `next`. Holds between statements. */
    ghost predicate LoopsOpen(next: Option<nat>)
      reads this
    {
      forall l <- loops :: Some(l.body) in scopes || Some(l.body) == next
    }

    function Frames(): seq<Frame>
      reads this
    {
      FramesOf(scopes, notes)
    }

    /** A scope stack for one function, with the function's own scope on it. */
    constructor ()
      ensures Valid() && scopes == [None] && loops == [] && !failed
    {
      scopes, loops, failed := [None], [], false;
      notes := Notes(map[], map[], map[], map[]);
    }

    // ---------- scopes ----------

    method CurrentBody() returns (b: Option<nat>)
      ensures b == if scopes == [] then None else scopes[|scopes| - 1]
    {
      if |scopes| == 0 {
        return None;
      }
      return scopes[|scopes| - 1];
    }

    /** Opens the scope of body `b`, whose list of defers has just been emptied. */
    method PushBodyScope(b: nat)
      requires Valid() && scopes != [] && Some(b) !in scopes
      requires b in notes.bodyDefers && notes.bodyDefers[b] == []
      modifies this`scopes, this`notes
      ensures Valid() && scopes == old(scopes) + [Some(b)]
      ensures Frames() == [Frame(b, [])] + old(Frames())
      ensures notes == WithParent(old(notes), b, old(scopes)[|old(scopes)| - 1])
    {
      var current := CurrentBody();
      ChainPush(scopes, notes, b);
      scopes, notes := scopes + [Some(b)], WithParent(notes, b, current);
    }

    method PopScope()
      requires Valid() && scopes != []
      modifies this`scopes
      ensures Valid() && scopes == old(scopes)[..|old(scopes)| - 1]
    {
      ChainPop(scopes, notes);
      scopes := scopes[..|scopes| - 1];
    }

    // ---------- defers ----------

    method PushDefer(d: Body)
      requires Valid() && |scopes| > 1
      modifies this`notes
      ensures Valid() && old(Frames()) != [] && Frames() == Hold(old(Frames()), d)
      ensures scopes[|scopes| - 1].value in old(notes).bodyDefers
      ensures notes == WithDefer(old(notes), scopes[|scopes| - 1].value, d)
    {
      var body := CurrentBody();
      ChainDefer(scopes, notes, d);
      notes := notes.(bodyDefers := notes.bodyDefers[body.value := notes.bodyDefers[body.value] + [d]]);
    }

    /** Adds the defers of one body, last to first. */
    method AppendDefersOf(body: nat, before: seq<Body>) returns (result: seq<Body>)
      requires body in notes.bodyDefers
      ensures result == before + Reversed(notes.bodyDefers[body])
    {
      var defers := notes.bodyDefers[body];
      result := before;
      var i := |defers| - 1;
      assert defers[..i + 1] == defers;
      while i >= 0
        invariant -1 <= i < |defers|
        invariant before + Reversed(defers) == result + Reversed(defers[..i + 1])
      {
        assert defers[..i + 1] == defers[..i] + [defers[i]];
        ReversedSnoc(defers[..i], defers[i]);
        result := result + [defers[i]];
        i := i - 1;
      }
    }

    /** Walks from the current body along the parents, up to and including body `to`. */
    method DefersUpTo(to: Option<nat>) returns (result: seq<Body>)
      requires Valid() && scopes != []
      ensures result == Defers.DefersUpTo(Frames(), to)
    {
      result := [];
      var body := CurrentBody();
      ghost var k, whole := |scopes|, WalkOn(scopes, notes, |scopes|, to, []);
      WalkOnIs(scopes, notes, k, to, []);
      assert scopes[..k] == scopes;
      while body.Some?
        invariant 0 <= k <= |scopes| && body == Below(scopes, k)
        invariant whole == WalkOn(scopes, notes, k, to, result)
        decreases k
      {
        WalkStep(scopes, notes, k);
        result := AppendDefersOf(body.value, result);
        if body == to {
          return;
        }
        body := notes.parents[body.value];
        k := k - 1;
      }
    }

    // ---------- loops ----------

    method TryNamedLoop(name: string) returns (l: Option<Loop>)
      ensures l == FindLoop(loops, Some(name))
    {
      var i := 0;
      while i < |loops|
        invariant 0 <= i <= |loops|
        invariant FindLoop(loops, Some(name)) == FindLoop(loops[i..], Some(name))
      {
        if loops[i].name == Some(name) {
          return Some(loops[i]);
        }
        i := i + 1;
      }
      return None;
    }

    method PushLoop(l: Loop) returns (ok: bool)
      requires Valid()
      modifies this`loops, this`failed
      ensures Valid()
      ensures ok <==> (l.name.Some? ==> FindLoop(old(loops), l.name).None?)
      ensures loops == if ok then old(loops) + [l] else old(loops)
      ensures failed == (old(failed) || !ok)
    {
      if l.name.Some? {
        var other := TryNamedLoop(l.name.value);
        if other.Some? {
          failed := true;
          return false;
        }
      }
      NamesDistinctPush(loops, l);
      loops := loops + [l];
      return true;
    }

    /** Popping an empty stack would stop the compiler; that can only follow a reported error. */
    method PopLoop()
      requires Valid() && (failed || loops != [])
      modifies this`loops
      ensures Valid()
      ensures loops == if old(loops) == [] then [] else old(loops)[..|old(loops)| - 1]
    {
      if |loops| > 0 {
        loops := loops[..|loops| - 1];
      }
    }

    method TopLoop() returns (l: Option<Loop>)
      modifies this`failed
      ensures l == FindLoop(loops, None)
      ensures failed == (old(failed) || l.None?)
    {
      if |loops| == 0 {
        failed := true;
        return None;
      }
      return Some(loops[|loops| - 1]);
    }

    method NamedLoop(name: string) returns (l: Option<Loop>)
      modifies this`failed
      ensures l == FindLoop(loops, Some(name))
      ensures failed == (old(failed) || l.None?)
    {
      l := TryNamedLoop(name);
      if l.None? {
        failed := true;
      }
    }

    // ---------- the walk ----------

    method AnalyzeBody(b: Body)
      requires Valid() && scopes != [] && DistinctBody(b) && BodyIds(b) !! ScopeIds(scopes)
      requires LoopsOpen(Some(b.id))
      modifies this
      ensures Valid() && scopes == old(scopes) && Frames() == old(Frames())
      ensures LoopsOpen(Some(b.id)) && loops <= old(loops)
      ensures KeptOutside(old(notes), notes, BodyIds(b))
      ensures !failed ==> loops == old(loops) && AnnotatedBody(notes, b, old(Frames()), old(loops))
      ensures failed == (old(failed) || !ResolvesBody(b, old(loops)))
      decreases BodyWeight(b), 0
    {
      OpenBody(b.id);
      ghost var pushed := notes;
      PushedScopeIds(old(scopes), b.id, BodyIds(b), StmtsIds(b.stmts));
      AnalyzeStmts(b);
      KeptTrans(old(notes), pushed, notes, BodyIds(b), BodyIds(b));
      BodyDone(scopes, notes, b, old(Frames()), old(loops), old(failed), loops, failed);
      CloseBody(b.id, old(scopes));
    }

    /** A body within a statement; the loops that are open have their bodies open. */
    method AnalyzeNested(b: Body)
      requires Valid() && scopes != [] && DistinctBody(b) && BodyIds(b) !! ScopeIds(scopes)
      requires LoopsOpen(None)
      modifies this
      ensures Valid() && scopes == old(scopes) && Frames() == old(Frames())
      ensures LoopsOpen(None) && loops <= old(loops)
      ensures KeptOutside(old(notes), notes, BodyIds(b))
      ensures !failed ==> loops == old(loops) && AnnotatedBody(notes, b, old(Frames()), old(loops))
      ensures failed == (old(failed) || !ResolvesBody(b, old(loops)))
      decreases BodyWeight(b), 1
    {
      AnalyzeBody(b);
    }

    method OpenBody(b: nat)
      requires Valid() && scopes != [] && b !in ScopeIds(scopes) && LoopsOpen(Some(b))
      modifies this`scopes, this`notes
      ensures Valid() && scopes == old(scopes) + [Some(b)] && LoopsOpen(None)
      ensures Frames() == [Frame(b, [])] + old(Frames())
      ensures KeptOutside(old(notes), notes, {b})
    {
      EmptyDefers(scopes, notes, b);
      notes := notes.(bodyDefers := notes.bodyDefers[b := []]);
      PushBodyScope(b);
    }

    method CloseBody(b: nat, ghost below: seq<Option<nat>>)
      requires Valid() && scopes == below + [Some(b)] && LoopsOpen(None)
      modifies this`scopes
      ensures Valid() && scopes == below && LoopsOpen(Some(b))
    {
      PopScope();
      assert scopes == below;
    }

    /** The statements of the body whose scope has just been opened. */
    method AnalyzeStmts(b: Body)
      requires Valid() && |scopes| > 1 && scopes[|scopes| - 1] == Some(b.id)
      requires DistinctBody(b) && StmtsIds(b.stmts) !! ScopeIds(scopes)
      requires LoopsOpen(None)
      modifies this
      ensures Valid() && scopes == old(scopes)
      ensures LoopsOpen(None) && loops <= old(loops)
      ensures old(Frames()) != [] && Frames() == FramesAfter(b.stmts, old(Frames()))
      ensures KeptOutside(old(notes), notes, BodyIds(b))
      ensures Analyzed(notes, b.stmts, |b.stmts|, old(Frames()), old(loops), old(failed), loops, failed)
      decreases StmtsWeight(b.stmts), 2
    {
      ChainPop(scopes, notes);
      ghost var frames := Frames();
      var i := 0;
      while i < |b.stmts|
        invariant 0 <= i <= |b.stmts|
        invariant Valid() && scopes == old(scopes) && LoopsOpen(None) && loops <= old(loops)
        invariant Frames() == FramesAfter(b.stmts[..i], frames)
        invariant KeptOutside(old(notes), notes, BodyIds(b))
        invariant Analyzed(notes, b.stmts, i, frames, old(loops), old(failed), loops, failed)
      {
        ghost var before, loops1, failed1 := notes, loops, failed;
        PickStmt(b.stmts, i);
        AnalyzeStmt(b.stmts[i]);
        assert !failed ==> AnnotatedStmt(notes, b.stmts[i], FramesAfter(b.stmts[..i], frames), loops1);
        AnalyzedStep(old(notes), before, notes, b, i, frames, old(loops), old(failed), loops1, failed1, loops, failed);
        i := i + 1;
      }
      assert b.stmts[..i] == b.stmts;
    }

    method AnalyzeStmt(s: Stmt)
      requires Valid() && |scopes| > 1 && DistinctStmt(s) && StmtIds(s) !! ScopeIds(scopes)
      requires LoopsOpen(None)
      modifies this
      ensures Valid() && scopes == old(scopes)
      ensures LoopsOpen(None) && loops <= old(loops)
      ensures old(Frames()) != [] && Frames() == StepFrames(s, old(Frames()))
      ensures KeptOutside(old(notes), notes, StmtIds(s) + {scopes[|scopes| - 1].value})
      ensures !failed ==> loops == old(loops) && AnnotatedStmt(notes, s, old(Frames()), old(loops))
      ensures failed == (old(failed) || !ResolvesStmt(s, old(loops)))
      decreases StmtWeight(s), 0
    {
      FramesOpen(scopes, notes);
      match s
      case Eval(_) =>
      case Return(_, _) => AnalyzeJump(s);
      case Control(_, _, _) => AnalyzeJump(s);
      case While(loop, name, _, body) => StmtWhile(loop, name, body);
      case If(main, elseIfs, otherwise) =>
        AnalyzeIf(main, elseIfs, otherwise);
      case Defer(body) => StmtDefer(body);
    }

    method AnalyzeJump(s: Stmt)
      requires Valid() && |scopes| > 1 && StmtIds(s) !! ScopeIds(scopes) && (s.Return? || s.Control?)
      modifies this`notes, this`failed
      ensures Valid() && old(Frames()) != [] && Frames() == old(Frames())
      ensures KeptOutside(old(notes), notes, StmtIds(s))
      ensures !failed ==> AnnotatedStmt(notes, s, old(Frames()), loops)
      ensures failed == (old(failed) || !ResolvesStmt(s, loops))
    {
      FramesOpen(scopes, notes);
      match s
      case Return(site, _) => StmtReturn(site);
      case Control(site, _, name) => StmtLoopControl(site, name);
    }

    method StmtReturn(site: nat)
      requires Valid() && |scopes| > 1 && site !in ScopeIds(scopes)
      modifies this`notes
      ensures Valid() && Frames() == old(Frames())
      ensures notes == old(notes).(siteDefers := old(notes).siteDefers[site := Defers.DefersUpTo(old(Frames()), None)])
    {
      var defers := DefersUpTo(None);
      SameChain(scopes, notes, notes.(siteDefers := notes.siteDefers[site := defers]));
      notes := notes.(siteDefers := notes.siteDefers[site := defers]);
    }

    method StmtLoopControl(site: nat, name: Option<string>)
      requires Valid() && |scopes| > 1 && site !in ScopeIds(scopes)
      modifies this`notes, this`failed
      ensures Valid() && Frames() == old(Frames())
      ensures KeptOutside(old(notes), notes, {site})
      ensures failed == (old(failed) || FindLoop(loops, name).None?)
      ensures FindLoop(loops, name).Some? ==>
        && site in notes.siteLoop && notes.siteLoop[site] == FindLoop(loops, name).value
        && site in notes.siteDefers
        && notes.siteDefers[site] == Defers.DefersUpTo(old(Frames()), Some(FindLoop(loops, name).value.body))
    {
      var found;
      match name {
        case Some(n) => found := NamedLoop(n);
        case None => found := TopLoop();
      }
      if found.None? {
        return;
      }
      var loop := found.value;
      var defers := DefersUpTo(Some(loop.body));
      var written := notes.(siteLoop := notes.siteLoop[site := loop], siteDefers := notes.siteDefers[site := defers]);
      SameChain(scopes, notes, written);
      notes := written;
    }

    method StmtWhile(loop: nat, name: Option<string>, body: Body)
      requires Valid() && |scopes| > 1 && DistinctBody(body) && BodyIds(body) !! ScopeIds(scopes)
      requires LoopsOpen(None)
      modifies this
      ensures Valid() && scopes == old(scopes) && Frames() == old(Frames())
      ensures LoopsOpen(None) && loops <= old(loops)
      ensures KeptOutside(old(notes), notes, BodyIds(body))
      ensures var l := Loop(loop, name, body.id); var unused := name.Some? ==> FindLoop(old(loops), name).None?;
        && (!failed ==> loops == old(loops) && unused && AnnotatedBody(notes, body, old(Frames()), old(loops) + [l]))
        && failed == (old(failed) || !unused || !ResolvesBody(body, old(loops) + [l]))
      decreases BodyWeight(body), 1
    {
      var l := Loop(loop, name, body.id);
      var pushed := PushLoop(l);
      AnalyzeBody(body);
      PoppedPrefix(old(loops), loops, l);
      PopLoop();
    }

    method StmtDefer(body: Body)
      requires Valid() && |scopes| > 1 && DistinctBody(body) && BodyIds(body) !! ScopeIds(scopes)
      requires LoopsOpen(None)
      modifies this
      ensures Valid() && scopes == old(scopes) && old(Frames()) != [] && Frames() == Hold(old(Frames()), body)
      ensures LoopsOpen(None) && loops <= old(loops)
      ensures KeptOutside(old(notes), notes, BodyIds(body) + {scopes[|scopes| - 1].value})
      ensures !failed ==> loops == old(loops) && AnnotatedBody(notes, body, old(Frames()), old(loops))
      ensures failed == (old(failed) || !ResolvesBody(body, old(loops)))
      decreases BodyWeight(body), 2
    {
      FramesOpen(scopes, notes);
      AnalyzeNested(body);
      ghost var before := notes;
      PushDefer(body);
      DeferDone(scopes, old(notes), before, notes, body, old(Frames()), old(loops));
    }

    method AnalyzeIf(main: Clause, elseIfs: seq<Clause>, otherwise: Option<Body>)
      requires Valid() && |scopes| > 1 && DistinctStmt(If(main, elseIfs, otherwise))
      requires StmtIds(If(main, elseIfs, otherwise)) !! ScopeIds(scopes)
      requires LoopsOpen(None)
      modifies this
      ensures Valid() && scopes == old(scopes) && Frames() == old(Frames())
      ensures LoopsOpen(None) && loops <= old(loops)
      ensures KeptOutside(old(notes), notes, StmtIds(If(main, elseIfs, otherwise)))
      ensures old(Frames()) != []
      ensures !failed ==> loops == old(loops) && AnnotatedStmt(notes, If(main, elseIfs, otherwise), old(Frames()), old(loops))
      ensures failed == (old(failed) || !ResolvesStmt(If(main, elseIfs, otherwise), old(loops)))
      decreases ClauseWeight(main) + ClausesWeight(elseIfs) + OtherwiseWeight(otherwise), 1
    {
      AnalyzeClause(main);
      ghost var afterMain := notes;
      AnalyzeElseIfs(elseIfs);
      ghost var afterElseIfs := notes;
      AnalyzeOtherwise(otherwise);
      FramesOpen(scopes, notes);
      if !failed {
        IfDone(afterMain, afterElseIfs, notes, main, elseIfs, otherwise, old(Frames()), loops);
      }
    }

    method AnalyzeOtherwise(otherwise: Option<Body>)
      requires Valid() && |scopes| > 1 && DistinctOtherwise(otherwise) && OtherwiseIds(otherwise) !! ScopeIds(scopes)
      requires LoopsOpen(None)
      modifies this
      ensures Valid() && scopes == old(scopes) && Frames() == old(Frames())
      ensures LoopsOpen(None) && loops <= old(loops)
      ensures KeptOutside(old(notes), notes, OtherwiseIds(otherwise))
      ensures !failed ==> loops == old(loops) && AnnotatedOtherwise(notes, otherwise, old(Frames()), old(loops))
      ensures failed == (old(failed) || !ResolvesOtherwise(otherwise, old(loops)))
      decreases OtherwiseWeight(otherwise), 2
    {
      if otherwise.Some? {
        AnalyzeNested(otherwise.value);
      }
    }

    method AnalyzeClause(c: Clause)
      requires Valid() && |scopes| > 1 && DistinctClause(c) && ClauseIds(c) !! ScopeIds(scopes)
      requires LoopsOpen(None)
      modifies this
      ensures Valid() && scopes == old(scopes) && Frames() == old(Frames())
      ensures LoopsOpen(None) && loops <= old(loops)
      ensures KeptOutside(old(notes), notes, ClauseIds(c))
      ensures !failed ==> loops == old(loops) && AnnotatedClause(notes, c, old(Frames()), old(loops))
      ensures failed == (old(failed) || !ResolvesClause(c, old(loops)))
      decreases ClauseWeight(c), 0
    {
      AnalyzeNested(c.body);
    }

    method AnalyzeElseIfs(cs: seq<Clause>)
      requires Valid() && |scopes| > 1 && DistinctClauses(cs) && ClausesIds(cs) !! ScopeIds(scopes)
      requires LoopsOpen(None)
      modifies this
      ensures Valid() && scopes == old(scopes) && Frames() == old(Frames())
      ensures LoopsOpen(None) && loops <= old(loops)
      ensures KeptOutside(old(notes), notes, ClausesIds(cs))
      ensures !failed ==> loops == old(loops) && AnnotatedClauses(notes, cs, old(Frames()), old(loops))
      ensures failed == (old(failed) || !ResolvesClauses(cs, old(loops)))
      decreases ClausesWeight(cs), 2
    {
      var i := 0;
      while i < |cs|
        invariant 0 <= i <= |cs|
        invariant Valid() && scopes == old(scopes) && Frames() == old(Frames()) && LoopsOpen(None) && loops <= old(loops)
        invariant KeptOutside(old(notes), notes, ClausesIds(cs))
        invariant AnalyzedClauses(notes, cs, i, old(Frames()), old(loops), old(failed), loops, failed)
      {
        ghost var before, loops1, failed1 := notes, loops, failed;
        PickClause(cs, i);
        AnalyzeClause(cs[i]);
        KeptTrans(old(notes), before, notes, ClauseIds(cs[i]), ClausesIds(cs));
        AnalyzedClausesStep(before, notes, cs, i, old(Frames()), old(loops), old(failed), loops1, failed1, loops, failed);
        i := i + 1;
      }
      ClausesDone(notes, cs, old(Frames()), old(loops), old(failed), loops, failed);
    }
  }
}
