/** Laws of the statement language, for programs of a given form: the order in which defers run, what
    `break` and `continue` do, how often a loop goes round, which branch is taken. */
module Laws {
  import opened Options
  import opened Sequences
  import opened Syntax
  import opened Defers
  import opened Emission
  import opened Semantics
  import opened Compiler

  function Dids(actions: seq<nat>): History {
    seq(|actions|, i requires 0 <= i < |actions| => Did(actions[i]))
  }

  /** An expression does its actions in the order written. */
  lemma {:induction false} AfterActions(ps: seq<Piece>, h: History)
    ensures AfterPieces(ps, h) == h + Dids(Actions(ps))
    decreases |ps|
  {
    if ps == [] {
      assert h + Dids([]) == h;
    } else {
      match ps[0]
      case Do(a) =>
        AfterActions(ps[1..], h + [Did(a)]);
        assert h + [Did(a)] + Dids(Actions(ps[1..])) == h + Dids([a] + Actions(ps[1..]));
      case Slot(_) => AfterActions(ps[1..], h);
    }
  }

  // ---------- defers ----------

  /** Each of these bodies does one action and nothing else. */
  predicate EachDoes(ds: seq<Body>, actions: seq<nat>) {
    |ds| == |actions| && forall i :: 0 <= i < |ds| ==> ds[i].stmts == [Eval([Do(actions[i])])]
  }

  function Deferring(ds: seq<Body>): seq<Stmt> {
    seq(|ds|, i requires 0 <= i < |ds| => Defer(ds[i]))
  }

  lemma PlainBody(id: nat, ps: seq<Piece>, frames: seq<Frame>, orc: Oracle, h: History, fuel: nat)
    ensures ExecBody(Body(id, [Eval(ps)]), frames, orc, h, fuel) == Result(Normal, h + Dids(Actions(ps)), fuel)
  {
    var ss, inner, h1 := [Eval(ps)], [Frame(id, [])] + frames, AfterPieces(ps, h);
    AfterActions(ps, h);
    assert ss[0] == Eval(ps) && ss[1..] == [];
    assert ExecStmt(ss[0], inner, orc, h, fuel) == Result(Normal, h1, fuel);
    assert ExecStmts(ss[1..], inner, orc, h1, fuel) == Partial(Result(Normal, h1, fuel), []);
    assert ExecStmts(ss, inner, orc, h, fuel) == Partial(Result(Normal, h1, fuel), []);
    assert ExecBodies([], orc, h1, fuel) == Result(Normal, h1, fuel);
  }

  lemma BodyOfOne(d: Body, a: nat, orc: Oracle, h: History, fuel: nat)
    requires d.stmts == [Eval([Do(a)])]
    ensures ExecBody(d, [], orc, h, fuel) == Result(Normal, h + [Did(a)], fuel)
  {
    PlainBody(d.id, [Do(a)], [], orc, h, fuel);
    assert [Do(a)][1..] == [] && Dids(Actions([Do(a)])) == [Did(a)];
  }

  lemma {:induction false} BodiesOfOne(ds: seq<Body>, actions: seq<nat>, orc: Oracle, h: History, fuel: nat)
    requires EachDoes(ds, actions)
    ensures ExecBodies(ds, orc, h, fuel) == Result(Normal, h + Dids(actions), fuel)
    decreases |ds|
  {
    if ds == [] {
      assert h + Dids(actions) == h;
    } else {
      BodyOfOne(ds[0], actions[0], orc, h, fuel);
      BodiesOfOne(ds[1..], actions[1..], orc, h + [Did(actions[0])], fuel);
      assert h + [Did(actions[0])] + Dids(actions[1..]) == h + Dids(actions);
    }
  }

  /** Defers do nothing when they are passed but to be held. */
  lemma {:induction false} Registering(ds: seq<Body>, tail: seq<Stmt>, frames: seq<Frame>, orc: Oracle, h: History, fuel: nat)
    requires frames != []
    ensures ExecStmts(Deferring(ds) + tail, frames, orc, h, fuel) ==
            ExecStmts(tail, [Frame(frames[0].body, frames[0].defers + ds)] + frames[1..], orc, h, fuel)
    decreases |ds|
  {
    var all := Deferring(ds) + tail;
    if ds == [] {
      assert all == tail && frames[0].defers + ds == frames[0].defers;
      assert [Frame(frames[0].body, frames[0].defers)] + frames[1..] == frames;
    } else {
      assert all[0] == Defer(ds[0]) && all[1..] == Deferring(ds[1..]) + tail;
      var held := Hold(frames, ds[0]);
      assert held == [Frame(frames[0].body, frames[0].defers + [ds[0]])] + frames[1..] && held[1..] == frames[1..];
      Registering(ds[1..], tail, held, orc, h, fuel);
      Associate(frames[0].defers, [ds[0]], ds[1..]);
      assert [ds[0]] + ds[1..] == ds;
    }
  }

  lemma {:induction false} ReversedAt(ds: seq<Body>, i: nat)
    requires i < |ds|
    ensures Reversed(ds)[i] == ds[|ds| - 1 - i]
    decreases |ds|
  {
    if i < |ds| - 1 {
      ReversedAt(ds[1..], i);
    }
  }

  function Backwards(actions: seq<nat>): seq<nat> {
    seq(|actions|, i requires 0 <= i < |actions| => actions[|actions| - 1 - i])
  }

  /** A body that is left at its end runs its defers in the order written. */
  lemma EndRunsForwards(id: nat, ds: seq<Body>, actions: seq<nat>, frames: seq<Frame>, orc: Oracle, h: History, fuel: nat)
    requires EachDoes(ds, actions)
    ensures ExecBody(Body(id, Deferring(ds)), frames, orc, h, fuel) == Result(Normal, h + Dids(actions), fuel)
  {
    var inner := [Frame(id, [])] + frames;
    Registering(ds, [], inner, orc, h, fuel);
    assert Deferring(ds) + [] == Deferring(ds) && [] + ds == ds;
    BodiesOfOne(ds, actions, orc, h, fuel);
  }

  /** A body that is left by a jump runs them in the opposite order. */
  lemma JumpRunsBackwards(id: nat, ds: seq<Body>, actions: seq<nat>, s: Stmt, frames: seq<Frame>, orc: Oracle, h: History,
                          fuel: nat)
    requires EachDoes(ds, actions) && (s.Return? || s.Control?)
    ensures var r := ExecBody(Body(id, Deferring(ds) + [s]), frames, orc, h, fuel);
      && r.out.Jumped? && r.out.jump == (if s.Return? then ReturnWith(s.value) else Leave(s.isBreak, s.name))
      && r.h == h + Dids(Backwards(actions)) && r.fuel == fuel
  {
    var inner := [Frame(id, [])] + frames;
    Registering(ds, [s], inner, orc, h, fuel);
    assert [] + ds == ds && inner[1..] == frames;
    UnwindsBackwards(ExecStmts([s], [Frame(id, ds)] + frames, orc, h, fuel), actions, orc);
  }

  lemma UnwindsBackwards(p: Partial, actions: seq<nat>, orc: Oracle)
    requires p.r.out.Jumped? && EachDoes(p.defers, actions)
    ensures Unwind(p, orc) == Result(p.r.out, p.r.h + Dids(Backwards(actions)), p.r.fuel)
  {
    var back := Reversed(p.defers);
    forall i | 0 <= i < |back| ensures back[i].stmts == [Eval([Do(Backwards(actions)[i])])] {
      ReversedAt(p.defers, i);
    }
    BodiesOfOne(back, Backwards(actions), orc, p.r.h, p.r.fuel);
  }

  /** `return` runs the defers, last one first, and only then evaluates its value. */
  lemma ReturnValueLast(f: FuncDecl, ds: seq<Body>, actions: seq<nat>, site: nat, v: Operand, orc: Oracle, fuel: nat)
    requires f.params == [] && f.body.stmts == Deferring(ds) + [Return(site, Some(v))] && EachDoes(ds, actions)
    ensures ExecFunction(f, orc, fuel) ==
            Finished(Returned(Some(v.result)), Dids(Backwards(actions)) + Dids(Actions(v.pieces)))
  {
    JumpRunsBackwards(f.body.id, ds, actions, Return(site, Some(v)), [], orc, [], fuel);
    AfterActions(v.pieces, Dids(Backwards(actions)));
    assert AfterPieces(Prologue(f.params), []) == [];
    assert [] + Dids(Backwards(actions)) == Dids(Backwards(actions));
  }

  // ---------- loops ----------

  /** The history after `n` rounds in which the test said yes. */
  function Rounds(guard: Operand, ps: seq<Piece>, n: nat, h: History): History
    decreases n
  {
    if n == 0 then h
    else Rounds(guard, ps, n - 1, h) + Dids(Actions(guard.pieces)) + [Tested(guard.result, true)] + Dids(Actions(ps))
  }

  function Test(guard: Operand, orc: Oracle, h: History): bool {
    orc(h + Dids(Actions(guard.pieces)), guard.result)
  }

  lemma {:induction false} RoundsFirst(guard: Operand, ps: seq<Piece>, n: nat, h: History)
    ensures Rounds(guard, ps, n + 1, h) == Rounds(guard, ps, n, Rounds(guard, ps, 1, h))
    decreases n
  {
    if n > 0 {
      RoundsFirst(guard, ps, n - 1, h);
    }
  }

  /** A loop goes round until its test first says no. */
  lemma {:induction false} GoesRound(name: Option<string>, guard: Operand, id: nat, ps: seq<Piece>, frames: seq<Frame>,
                                     orc: Oracle, h: History, fuel: nat, n: nat)
    requires fuel > n && !Test(guard, orc, Rounds(guard, ps, n, h))
    requires forall k :: 0 <= k < n ==> Test(guard, orc, Rounds(guard, ps, k, h))
    ensures ExecLoop(name, guard, Body(id, [Eval(ps)]), frames, orc, h, fuel) ==
            Result(Normal, Rounds(guard, ps, n, h) + Dids(Actions(guard.pieces)) + [Tested(guard.result, false)], fuel - n - 1)
    decreases n
  {
    AfterActions(guard.pieces, h);
    var h2 := h + Dids(Actions(guard.pieces)) + [Tested(guard.result, true)];
    if n > 0 {
      assert Test(guard, orc, Rounds(guard, ps, 0, h));
      PlainBody(id, ps, frames, orc, h2, fuel - 1);
      var h3 := Rounds(guard, ps, 1, h);
      assert h3 == h2 + Dids(Actions(ps));
      RoundsFirst(guard, ps, n - 1, h);
      forall k | 0 <= k < n - 1 ensures Test(guard, orc, Rounds(guard, ps, k, h3)) {
        RoundsFirst(guard, ps, k, h);
        assert Test(guard, orc, Rounds(guard, ps, k + 1, h));
      }
      GoesRound(name, guard, id, ps, frames, orc, h3, fuel - 1, n - 1);
    } else {
      assert !Test(guard, orc, h);
    }
  }

  lemma JumpAlone(id: nat, s: Stmt, frames: seq<Frame>, orc: Oracle, h: History, fuel: nat)
    requires s.Control?
    ensures var r := ExecBody(Body(id, [s]), frames, orc, h, fuel);
      r.out.Jumped? && r.out.jump == Leave(s.isBreak, s.name) && r.h == h && r.fuel == fuel
  {
    var none: seq<Body> := [];
    var noActions: seq<nat> := [];
    assert Deferring(none) + [s] == [s];
    JumpRunsBackwards(id, none, noActions, s, frames, orc, h, fuel);
    assert h + Dids(Backwards(noActions)) == h;
  }

  /** A loop whose body is a `break`, unnamed or by its own name, tests once. */
  lemma BreakEndsLoop(name: Option<string>, guard: Operand, id: nat, site: nat, to: Option<string>, frames: seq<Frame>,
                      orc: Oracle, h: History, fuel: nat)
    requires fuel > 0 && (to.None? || to == name)
    ensures ExecLoop(name, guard, Body(id, [Control(site, true, to)]), frames, orc, h, fuel) ==
            Result(Normal, h + Dids(Actions(guard.pieces)) + [Tested(guard.result, Test(guard, orc, h))], fuel - 1)
  {
    AfterActions(guard.pieces, h);
    var h2 := h + Dids(Actions(guard.pieces)) + [Tested(guard.result, true)];
    JumpAlone(id, Control(site, true, to), frames, orc, h2, fuel - 1);
  }

  /** A loop whose body is a `continue`, unnamed or by its own name, is a loop with nothing to do. */
  lemma {:induction false} ContinueEndsRound(name: Option<string>, guard: Operand, id: nat, site: nat, to: Option<string>,
                                             frames: seq<Frame>, orc: Oracle, h: History, fuel: nat)
    requires to.None? || to == name
    ensures ExecLoop(name, guard, Body(id, [Control(site, false, to)]), frames, orc, h, fuel) ==
            ExecLoop(name, guard, Body(id, [Eval([])]), frames, orc, h, fuel)
    decreases fuel
  {
    if fuel > 0 {
      AfterActions(guard.pieces, h);
      var h2 := h + Dids(Actions(guard.pieces)) + [Tested(guard.result, true)];
      JumpAlone(id, Control(site, false, to), frames, orc, h2, fuel - 1);
      PlainBody(id, [], frames, orc, h2, fuel - 1);
      assert h2 + Dids(Actions([])) == h2;
      ContinueEndsRound(name, guard, id, site, to, frames, orc, h2, fuel - 1);
    }
  }

  /** A jump by another name passes through a loop, after one test that says yes. */
  lemma OtherNamePasses(name: Option<string>, guard: Operand, id: nat, s: Stmt, frames: seq<Frame>, orc: Oracle,
                        h: History, fuel: nat)
    requires s.Control? && s.name.Some? && s.name != name && fuel > 0 && Test(guard, orc, h)
    ensures var r := ExecLoop(name, guard, Body(id, [s]), frames, orc, h, fuel);
      && r.out.Jumped? && r.out.jump == Leave(s.isBreak, s.name) && r.fuel == fuel - 1
      && r.h == h + Dids(Actions(guard.pieces)) + [Tested(guard.result, true)]
  {
    AfterActions(guard.pieces, h);
    JumpAlone(id, s, frames, orc, h + Dids(Actions(guard.pieces)) + [Tested(guard.result, true)], fuel - 1);
  }

  // ---------- branches ----------

  /** The history when the first `k` tests have said no. */
  function Refused(cs: seq<Clause>, k: nat, h: History): History
    requires k <= |cs|
    decreases k
  {
    if k == 0 then h
    else Refused(cs, k - 1, h) + Dids(Actions(cs[k - 1].guard.pieces)) + [Tested(cs[k - 1].guard.result, false)]
  }

  predicate SaysYes(cs: seq<Clause>, i: nat, orc: Oracle, h: History)
    requires i < |cs|
  {
    Test(cs[i].guard, orc, Refused(cs, i, h))
  }

  lemma {:induction false} RefusedFirst(cs: seq<Clause>, k: nat, h: History)
    requires 0 < k <= |cs|
    ensures Refused(cs, k, h) == Refused(cs[1..], k - 1, Refused(cs, 1, h))
    decreases k
  {
    if k > 1 {
      RefusedFirst(cs, k - 1, h);
      assert cs[1..][k - 2] == cs[k - 1];
    }
  }

  /** Tests are made in order up to the first that says yes, and its branch runs; if none does, the `else`
      branch runs. */
  lemma {:induction false} TakesFirst(cs: seq<Clause>, otherwise: Option<Body>, frames: seq<Frame>, orc: Oracle, h: History,
                                      fuel: nat, k: nat)
    requires cs != [] && k <= |cs| && forall i :: 0 <= i < k ==> !SaysYes(cs, i, orc, h)
    requires k < |cs| ==> SaysYes(cs, k, orc, h)
    ensures var h1 := Refused(cs, k, h);
      ExecIf(cs[0], cs[1..], otherwise, frames, orc, h, fuel) ==
      if k < |cs| then
        ExecBody(cs[k].body, frames, orc, h1 + Dids(Actions(cs[k].guard.pieces)) + [Tested(cs[k].guard.result, true)], fuel)
      else if otherwise.Some? then ExecBody(otherwise.value, frames, orc, h1, fuel)
      else Result(Normal, h1, fuel)
    decreases |cs|
  {
    IfTurn(cs, otherwise, frames, orc, h, fuel);
    if k > 0 {
      assert !SaysYes(cs, 0, orc, h);
      var h1 := Refused(cs, 1, h);
      RefusedFirst(cs, k, h);
      if |cs| > 1 {
        forall i | 0 <= i < |cs| - 1 ensures SaysYes(cs[1..], i, orc, h1) == SaysYes(cs, i + 1, orc, h) {
          RefusedFirst(cs, i + 1, h);
        }
        assert k < |cs| ==> cs[1..][k - 1] == cs[k];
        TakesFirst(cs[1..], otherwise, frames, orc, h1, fuel, k - 1);
      }
    } else {
      assert SaysYes(cs, 0, orc, h);
    }
  }

  /** The first test, and what is left if it says no. */
  lemma IfTurn(cs: seq<Clause>, otherwise: Option<Body>, frames: seq<Frame>, orc: Oracle, h: History, fuel: nat)
    requires cs != []
    ensures var guard, h1 := cs[0].guard, Refused(cs, 1, h);
      ExecIf(cs[0], cs[1..], otherwise, frames, orc, h, fuel) ==
      if Test(guard, orc, h) then
        ExecBody(cs[0].body, frames, orc, h + Dids(Actions(guard.pieces)) + [Tested(guard.result, true)], fuel)
      else if |cs| > 1 then ExecIf(cs[1..][0], cs[1..][1..], otherwise, frames, orc, h1, fuel)
      else if otherwise.Some? then ExecBody(otherwise.value, frames, orc, h1, fuel)
      else Result(Normal, h1, fuel)
  {
    AfterActions(cs[0].guard.pieces, h);
    assert Refused(cs, 0, h) == h;
  }
}
