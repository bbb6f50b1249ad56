/** Enclosing bodies with the defers they hold, enclosing loops, and how a jump looks both up. */
module Defers {
  import opened Options
  import opened Syntax

  /** A body that control is inside of, with the defers it has registered so far. */
  datatype Frame = Frame(body: nat, defers: seq<Body>)

  datatype Loop = Loop(id: nat, name: Option<string>, body: nat)

  function Reversed(ds: seq<Body>): (r: seq<Body>)
    ensures BodiesWeight(r) == BodiesWeight(ds)
    ensures |r| == |ds|
  {
    if ds == [] then []
    else
      BodiesWeightConcat(Reversed(ds[1..]), [ds[0]]);
      assert [ds[0]][1..] == [];
      Reversed(ds[1..]) + [ds[0]]
  }

  lemma {:induction false} ReversedSnoc(ds: seq<Body>, d: Body)
    ensures Reversed(ds + [d]) == [d] + Reversed(ds)
  {
    if ds == [] {
      assert ds + [d] == [d];
      assert [d][1..] == [];
    } else {
      assert (ds + [d])[0] == ds[0] && (ds + [d])[1..] == ds[1..] + [d];
      ReversedSnoc(ds[1..], d);
    }
  }

  function FramesWeight(frames: seq<Frame>): nat {
    if frames == [] then 0 else BodiesWeight(frames[0].defers) + FramesWeight(frames[1..])
  }

  /** The innermost body registers one more defer. */
  function Hold(frames: seq<Frame>, d: Body): (r: seq<Frame>)
    requires frames != []
    ensures FramesWeight(r) == FramesWeight(frames) + BodyWeight(d)
  {
    BodiesWeightConcat(frames[0].defers, [d]);
    assert [d][1..] == [];
    [Frame(frames[0].body, frames[0].defers + [d])] + frames[1..]
  }

  /** What passing statement `s` does to the enclosing bodies. */
  function StepFrames(s: Stmt, frames: seq<Frame>): (r: seq<Frame>)
    requires frames != []
    ensures r != [] && FramesWeight(r) <= FramesWeight(frames) + StmtWeight(s)
  {
    if s.Defer? then
      assert StmtWeight(s) == 1 + BodyWeight(s.body);
      Hold(frames, s.body)
    else frames
  }

  /** The defers a jump out of `frames` (innermost first) must run, up to and including the frame
      of body `to`; all of them when there is no such limit. Innermost body first, and in each body
      the last registered first. */
  function DefersUpTo(frames: seq<Frame>, to: Option<nat>): (ds: seq<Body>)
    ensures BodiesWeight(ds) <= FramesWeight(frames)
  {
    if frames == [] then []
    else if to == Some(frames[0].body) then Reversed(frames[0].defers)
    else
      BodiesWeightConcat(Reversed(frames[0].defers), DefersUpTo(frames[1..], to));
      Reversed(frames[0].defers) + DefersUpTo(frames[1..], to)
  }

  /** The loop a name, or the absence of one, denotes among the open loops (outermost first). */
  function FindLoop(loops: seq<Loop>, name: Option<string>): (l: Option<Loop>) {
    if loops == [] then None
    else if name.None? then Some(loops[|loops| - 1])
    else if loops[0].name == name then Some(loops[0])
    else FindLoop(loops[1..], name)
  }

  // ---------- which programs are covered ----------

  /** Names of open loops may not be reused, every `break` and `continue` finds its loop, and no
      jump leaves the body of the defer it is written in. */
  predicate ConfinedStmts(ss: seq<Stmt>, loops: seq<Loop>, inDefer: bool) {
    ss == [] || (ConfinedStmt(ss[0], loops, inDefer) && ConfinedStmts(ss[1..], loops, inDefer))
  }

  predicate ConfinedBody(b: Body, loops: seq<Loop>, inDefer: bool) {
    ConfinedStmts(b.stmts, loops, inDefer)
  }

  predicate ConfinedStmt(s: Stmt, loops: seq<Loop>, inDefer: bool) {
    match s
    case Eval(_) => true
    case Return(_, _) => !inDefer
    case Control(_, _, name) => FindLoop(loops, name).Some?
    case While(loop, name, _, body) =>
      (name.Some? ==> FindLoop(loops, name).None?) && ConfinedBody(body, loops + [Loop(loop, name, body.id)], inDefer)
    case If(main, elseIfs, otherwise) =>
      && ConfinedClause(main, loops, inDefer)
      && ConfinedClauses(elseIfs, loops, inDefer)
      && ConfinedOtherwise(otherwise, loops, inDefer)
    case Defer(body) => ConfinedBody(body, [], true)
  }

  predicate ConfinedClause(c: Clause, loops: seq<Loop>, inDefer: bool) {
    ConfinedBody(c.body, loops, inDefer)
  }

  predicate ConfinedClauses(cs: seq<Clause>, loops: seq<Loop>, inDefer: bool) {
    cs == [] || (ConfinedClause(cs[0], loops, inDefer) && ConfinedClauses(cs[1..], loops, inDefer))
  }

  predicate ConfinedOtherwise(o: Option<Body>, loops: seq<Loop>, inDefer: bool) {
    match o
    case None => true
    case Some(b) => ConfinedBody(b, loops, inDefer)
  }

  /** Jumps written in a defer stay inside it. Nothing is asked of other jumps, nor of names. `own` are the
      loops around the code, of those inside its defer if it is in one. */
  predicate StaysStmts(ss: seq<Stmt>, own: seq<Loop>, inDefer: bool) {
    ss == [] || (StaysStmt(ss[0], own, inDefer) && StaysStmts(ss[1..], own, inDefer))
  }

  predicate StaysBody(b: Body, own: seq<Loop>, inDefer: bool) {
    StaysStmts(b.stmts, own, inDefer)
  }

  predicate StaysStmt(s: Stmt, own: seq<Loop>, inDefer: bool) {
    match s
    case Eval(_) => true
    case Return(_, _) => !inDefer
    case Control(_, _, name) => inDefer ==> FindLoop(own, name).Some?
    case While(loop, name, _, body) => StaysBody(body, own + [Loop(loop, name, body.id)], inDefer)
    case If(main, elseIfs, otherwise) =>
      StaysClause(main, own, inDefer) && StaysClauses(elseIfs, own, inDefer) && StaysOtherwise(otherwise, own, inDefer)
    case Defer(body) => StaysBody(body, [], true)
  }

  predicate StaysClause(c: Clause, own: seq<Loop>, inDefer: bool) {
    StaysBody(c.body, own, inDefer)
  }

  predicate StaysClauses(cs: seq<Clause>, own: seq<Loop>, inDefer: bool) {
    cs == [] || (StaysClause(cs[0], own, inDefer) && StaysClauses(cs[1..], own, inDefer))
  }

  predicate StaysOtherwise(o: Option<Body>, own: seq<Loop>, inDefer: bool) {
    match o
    case None => true
    case Some(b) => StaysBody(b, own, inDefer)
  }

  /** A defer body that may be replayed anywhere. */
  predicate Replayable(d: Body) {
    ConfinedBody(d, [], true) && DistinctBody(d)
  }

  // ---------- contexts ----------

  predicate NamesDistinct(loops: seq<Loop>) {
    forall i, j :: 0 <= i < j < |loops| && loops[i].name.Some? ==> loops[i].name != loops[j].name
  }

  function FrameBodies(frames: seq<Frame>): set<nat> {
    set f | f in frames :: f.body
  }

  function HeldIds(frames: seq<Frame>): set<nat> {
    if frames == [] then {} else BodiesIds(frames[0].defers) + HeldIds(frames[1..])
  }

  function LoopIds(loops: seq<Loop>): set<nat> {
    set l | l in loops :: l.id
  }

  function ContextIds(frames: seq<Frame>, loops: seq<Loop>): set<nat> {
    FrameBodies(frames) + HeldIds(frames) + LoopIds(loops)
  }

  /** What analysis keeps true of the bodies and loops around a statement: loop names are distinct,
      each loop's body is one of the enclosing bodies, and held defers share no node with them. */
  ghost predicate Context(frames: seq<Frame>, loops: seq<Loop>) {
    && NamesDistinct(loops)
    && (forall l :: l in loops ==> l.body in FrameBodies(frames))
    && LoopIds(loops) !! HeldIds(frames)
    && (forall f, d :: f in frames && d in f.defers ==> Replayable(d))
  }

  lemma FindLoopSound(loops: seq<Loop>, name: Option<string>)
    ensures FindLoop(loops, name).Some? ==> FindLoop(loops, name).value in loops
    ensures FindLoop(loops, name).Some? && name.Some? ==> FindLoop(loops, name).value.name == name
    ensures FindLoop(loops, name).None? ==> loops == [] || (name.Some? && forall l :: l in loops ==> l.name != name)
  {
    if loops != [] && name.Some? && loops[0].name != name {
      FindLoopSound(loops[1..], name);
      assert forall l :: l in loops ==> l == loops[0] || l in loops[1..];
    }
  }

  /** Adding an inner loop: it catches unnamed jumps and jumps to its own name, and no others. */
  lemma {:induction false} FindLoopPush(loops: seq<Loop>, l: Loop, name: Option<string>)
    requires l.name.Some? ==> FindLoop(loops, l.name).None?
    ensures FindLoop(loops + [l], name) == if name.None? || name == l.name then Some(l) else FindLoop(loops, name)
  {
    if loops == [] {
      assert loops + [l] == [l];
      assert [l][1..] == [];
    } else if name.Some? {
      assert (loops + [l])[0] == loops[0] && (loops + [l])[1..] == loops[1..] + [l];
      FindLoopSound(loops, l.name);
      if loops[0].name != name {
        FindLoopPush(loops[1..], l, name);
      }
    }
  }

  /** With distinct names, a name denotes the one loop that has it. */
  lemma {:induction false} FindLoopOnly(loops: seq<Loop>, l: Loop)
    requires NamesDistinct(loops) && l in loops && l.name.Some?
    ensures FindLoop(loops, l.name) == Some(l)
    decreases |loops|
  {
    var i :| 0 <= i < |loops| && loops[i] == l;
    if i > 0 {
      assert loops[0].name != l.name && loops[1..][i - 1] == l;
      FindLoopOnly(loops[1..], l);
    }
  }

  lemma NamesDistinctPush(loops: seq<Loop>, l: Loop)
    requires NamesDistinct(loops) && (l.name.Some? ==> FindLoop(loops, l.name).None?)
    ensures NamesDistinct(loops + [l])
  {
    FindLoopSound(loops, l.name);
  }

  lemma BodiesIdsContain(ds: seq<Body>, d: Body)
    requires d in ds
    ensures BodyIds(d) <= BodiesIds(ds)
  {
    if d != ds[0] {
      BodiesIdsContain(ds[1..], d);
    }
  }

  lemma BodiesIdsConcat(a: seq<Body>, b: seq<Body>)
    ensures BodiesIds(a + b) == BodiesIds(a) + BodiesIds(b)
  {
    if a == [] {
      assert a + b == b;
    } else {
      assert (a + b)[0] == a[0] && (a + b)[1..] == a[1..] + b;
      BodiesIdsConcat(a[1..], b);
    }
  }

  lemma ReversedMembers(ds: seq<Body>, d: Body)
    ensures d in Reversed(ds) <==> d in ds
  {
    if ds != [] {
      ReversedMembers(ds[1..], d);
    }
  }

  /** Whatever a jump runs was registered by one of the bodies it leaves. */
  lemma {:induction false} DefersUpToMembers(frames: seq<Frame>, to: Option<nat>, d: Body)
    requires d in DefersUpTo(frames, to)
    ensures exists f :: f in frames && d in f.defers
  {
    ReversedMembers(frames[0].defers, d);
    if d in frames[0].defers {
      assert frames[0] in frames;
    } else {
      DefersUpToMembers(frames[1..], to, d);
      var f :| f in frames[1..] && d in f.defers;
      assert f in frames;
    }
  }
}
