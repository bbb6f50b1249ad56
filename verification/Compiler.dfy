/** One function from its syntax to its basic blocks, and the proof that the blocks do what the
    function means. */
module Compiler {
  import opened Options
  import opened Syntax
  import opened Defers
  import opened Emission
  import opened Growth
  import opened Annotations
  import opened Semantics
  import opened Simulation
  import opened Discipline
  import Runtime
  import Analysis
  import Resolution
  import Backend

  /** A parameter is copied into a slot of its own; an extension's `self` is the first one. */
  datatype Param = Param(slot: nat, store: nat)

  datatype FuncDecl = FuncDecl(params: seq<Param>, isVoid: bool, body: Body)

  function Prologue(ps: seq<Param>): seq<Piece> {
    if ps == [] then [] else [Slot(ps[0].slot), Do(ps[0].store)] + Prologue(ps[1..])
  }

  // ---------- the blocks of a function ----------

  const ENTRY: nat := 0
  const CODE: nat := 1

  const FRESH_FUNCTION: Gen := RawGen.Gen([[], []], ENTRY, ENTRY, ENTRY, map[])

  function EmitFunction(f: FuncDecl): (g: Gen)
    ensures |g.blocks| >= 2
  {
    var g1 := MoveTo(EmitPieces(Prologue(f.params), FRESH_FUNCTION), CODE);
    var e := EmitBody(f.body, [], [], g1);
    var g2 := if f.isVoid then Append(e.g, Ret(None)) else e.g;
    Append(g2.(pos := ENTRY), Br(CODE))
  }

  /** Programs the theorems speak about: distinct nodes, and no jump out of a defer's body. */
  predicate Covered(f: FuncDecl) {
    DistinctBody(f.body) && ConfinedBody(f.body, [], false)
  }

  /** The state in which the body is lowered. */
  lemma CodeReady(f: FuncDecl)
    requires Covered(f)
    ensures var g1 := MoveTo(EmitPieces(Prologue(f.params), FRESH_FUNCTION), CODE);
      && Ready(StmtsIds(f.body.stmts), [Frame(f.body.id, [])] + [], [], g1)
      && |g1.blocks| == 2 && g1.definitions == ENTRY && g1.blocks[CODE] == []
      && g1.blocks[ENTRY] == Straight(Prologue(f.params))
  {
    var frames := [Frame(f.body.id, [])] + [];
    assert frames == [Frame(f.body.id, [])] && frames[1..] == [];
    InnerFrames(f.body.id, []);
    EntryPieces(Prologue(f.params), FRESH_FUNCTION);
  }

  // ---------- the entry block ----------

  function Straight(ps: seq<Piece>): Block {
    if ps == [] then []
    else [match ps[0] case Do(a) => Act(a) case Slot(t) => Alloca(t)] + Straight(ps[1..])
  }

  /** While parameters are stored the entry block is both code block and definitions block. */
  lemma {:induction false} EntryPieces(ps: seq<Piece>, g: Gen)
    requires g.pos == g.codeBlock == g.definitions
    ensures EmitPieces(ps, g) == g.(blocks := g.blocks[g.pos := g.blocks[g.pos] + Straight(ps)])
  {
    if ps == [] {
      assert g.blocks[g.pos] + [] == g.blocks[g.pos];
    } else {
      var i := match ps[0] case Do(a) => Act(a) case Slot(t) => Alloca(t);
      var g1 := g.(blocks := g.blocks[g.pos := g.blocks[g.pos] + [i]]);
      EntryPieces(ps[1..], g1);
      assert g.blocks[g.pos] + [i] + Straight(ps[1..]) == g.blocks[g.pos] + Straight(ps);
    }
  }

  /** The part of a block from `o` on, as long as it is straight code. */
  lemma {:induction false} RunStraight(ps: seq<Piece>, b: nat, o: nat, blocks: seq<Block>, orc: Oracle, h: History)
    requires b < |blocks| && o + |Straight(ps)| <= |blocks[b]|
    requires blocks[b][o..o + |Straight(ps)|] == Straight(ps)
    ensures Run(blocks, orc, At(b, o, h), |Straight(ps)|) == At(b, o + |Straight(ps)|, AfterPieces(ps, h))
    decreases |ps|
  {
    if ps != [] {
      var code := Straight(ps);
      assert code[0] == blocks[b][o..o + |code|][0] == blocks[b][o];
      assert code[1..] == blocks[b][o..o + |code|][1..] == blocks[b][o + 1..o + |code|];
      RunStraight(ps[1..], b, o + 1, blocks, orc, match ps[0] case Do(a) => h + [Did(a)] case Slot(_) => h);
    }
  }

  lemma {:induction false} RunSlots(b: nat, o: nat, n: nat, blocks: seq<Block>, orc: Oracle, h: History)
    requires b < |blocks| && o + n <= |blocks[b]|
    requires forall k :: o <= k < o + n ==> blocks[b][k].Alloca?
    ensures Run(blocks, orc, At(b, o, h), n) == At(b, o + n, h)
    decreases n
  {
    if n > 0 {
      assert blocks[b][o].Alloca?;
      RunSlots(b, o + 1, n - 1, blocks, orc, h);
    }
  }

  /** The finished entry block: parameters, then every slot the body asked for, then on to the code. */
  lemma EntryBlock(f: FuncDecl)
    requires Covered(f)
    ensures var entry := EmitFunction(f).blocks[ENTRY]; var args := Straight(Prologue(f.params));
      && |args| < |entry| && entry[..|args|] == args
      && (forall k :: |args| <= k < |entry| - 1 ==> entry[k].Alloca?)
      && entry[|entry| - 1] == Br(CODE)
  {
    var g1 := MoveTo(EmitPieces(Prologue(f.params), FRESH_FUNCTION), CODE);
    var e := EmitBody(f.body, [], [], g1);
    CodeReady(f);
    EmitBodyGrows(f.body, [], [], g1);
    var g2 := if f.isVoid then Append(e.g, Ret(None)) else e.g;
    assert g2.blocks[ENTRY] == e.g.blocks[ENTRY];
    assert EmitFunction(f).blocks[ENTRY] == g2.blocks[ENTRY] + [Br(CODE)];
  }

  lemma RunEntry(f: FuncDecl, orc: Oracle) returns (n: nat)
    requires Covered(f)
    ensures Run(EmitFunction(f).blocks, orc, At(ENTRY, 0, []), n) == At(CODE, 0, AfterPieces(Prologue(f.params), []))
  {
    var blocks := EmitFunction(f).blocks;
    var entry := blocks[ENTRY];
    var ps := Prologue(f.params);
    var k := |Straight(ps)|;
    var h := AfterPieces(ps, []);
    EntryBlock(f);
    RunStraight(ps, ENTRY, 0, blocks, orc, []);
    RunSlots(ENTRY, k, |entry| - 1 - k, blocks, orc, h);
    RunAdd(blocks, orc, At(ENTRY, 0, []), k, |entry| - 1 - k);
    RunAdd(blocks, orc, At(ENTRY, 0, []), |entry| - 1, 1);
    RunOne(blocks, orc, At(ENTRY, |entry| - 1, h));
    n := |entry|;
  }

  // ---------- what a call of the function does ----------

  datatype Verdict = Finished(end: End, h: History) | Unfinished(h: History)

  /** Returning runs the defers of every open body first, and evaluates the value after them. */
  function ExecFunction(f: FuncDecl, orc: Oracle, fuel: nat): Verdict {
    var r := ExecBody(f.body, [], orc, AfterPieces(Prologue(f.params), []), fuel);
    match r.out
    case OutOfFuel => Unfinished(r.h)
    case Normal => Finished(if f.isVoid then Returned(None) else FellOff, r.h)
    case Jumped(_, ReturnWith(Some(v)), _) => Finished(Returned(Some(v.result)), AfterPieces(v.pieces, r.h))
    case Jumped(_, ReturnWith(None), _) => Finished(Returned(None), r.h)
    case Jumped(_, Leave(_, _), _) => Finished(FellOff, r.h)
  }

  lemma CodeWithin(f: FuncDecl)
    requires Covered(f)
    ensures var g1 := MoveTo(EmitPieces(Prologue(f.params), FRESH_FUNCTION), CODE);
      var e := EmitBody(f.body, [], [], g1);
      && Within(e.g, EmitFunction(f).blocks)
      && e.g.pos != ENTRY && (f.isVoid ==> Within(Append(e.g, Ret(None)), EmitFunction(f).blocks))
      && (!f.isVoid ==> EmitFunction(f).blocks[e.g.pos] == e.g.blocks[e.g.pos])
  {
    var g1 := MoveTo(EmitPieces(Prologue(f.params), FRESH_FUNCTION), CODE);
    CodeReady(f);
    EmitBodyGrows(f.body, [], [], g1);
  }

  /** Steps of the blocks that match a call, given fuel. */
  lemma SimFunction(f: FuncDecl, orc: Oracle, fuel: nat) returns (n: nat)
    requires Covered(f)
    ensures var c := Run(EmitFunction(f).blocks, orc, At(ENTRY, 0, []), n);
      match ExecFunction(f, orc, fuel)
      case Finished(end, h) => c == Done(end, h)
      case Unfinished(h) => n >= fuel && c.At? && c.h == h
  {
    var blocks := EmitFunction(f).blocks;
    var start := At(ENTRY, 0, []);
    var g1 := MoveTo(EmitPieces(Prologue(f.params), FRESH_FUNCTION), CODE);
    var e := EmitBody(f.body, [], [], g1);
    var h0 := AfterPieces(Prologue(f.params), []);
    CodeReady(f);
    CodeWithin(f);
    var k := RunEntry(f, orc);
    var m, gj := SimBody(f.body, [], [], false, g1, blocks, orc, h0, fuel);
    RunAdd(blocks, orc, start, k, m);
    n := k + m;
    var r := ExecBody(f.body, [], orc, h0, fuel);
    match r.out
    case OutOfFuel =>
    case Normal =>
      if f.isVoid {
        NextInstr(e.g, Ret(None), blocks);
      }
      RunAdd(blocks, orc, start, n, 1);
      RunOne(blocks, orc, Here(e.g, r.h));
      n := n + 1;
    case Jumped(_, j, _) =>
      var m1 := FinishReturn(j, gj, blocks, orc, r.h);
      RunAdd(blocks, orc, start, n, m1);
      n := n + m1;
  }

  lemma FinishReturn(j: Jump, gj: Gen, blocks: seq<Block>, orc: Oracle, h: History) returns (n: nat)
    requires j.ReturnWith? && gj.Settled() && Within(EmitJump(j, Exit, [], gj), blocks)
    ensures Run(blocks, orc, Here(gj, h), n) ==
      match j.value
      case None => Done(Returned(None), h)
      case Some(v) => Done(Returned(Some(v.result)), AfterPieces(v.pieces, h))
  {
    match j.value
    case None =>
      NextInstr(gj, Ret(None), blocks);
      RunOne(blocks, orc, Here(gj, h));
      n := 1;
    case Some(v) =>
      var g1 := EmitPieces(v.pieces, gj);
      NextInstr(g1, Ret(Some(v.result)), blocks);
      var m := SimPieces(v.pieces, gj, blocks, orc, h);
      RunAdd(blocks, orc, Here(gj, h), m, 1);
      RunOne(blocks, orc, Here(g1, AfterPieces(v.pieces, h)));
      n := m + 1;
  }

  // ---------- the theorems ----------

  /** The blocks finish with an end and a history exactly when the function does: neither goes on
      for ever, nor stops, where the other does not. */
  lemma FunctionCorrect(f: FuncDecl, orc: Oracle, end: End, h: History)
    requires Covered(f)
    ensures (exists fuel: nat :: ExecFunction(f, orc, fuel) == Finished(end, h)) <==>
            (exists n: nat :: Run(EmitFunction(f).blocks, orc, At(ENTRY, 0, []), n) == Done(end, h))
  {
    var blocks := EmitFunction(f).blocks;
    var start := At(ENTRY, 0, []);
    if fuel: nat :| ExecFunction(f, orc, fuel) == Finished(end, h) {
      var n := SimFunction(f, orc, fuel);
      assert Run(blocks, orc, start, n) == Done(end, h);
    }
    if n: nat :| Run(blocks, orc, start, n) == Done(end, h) {
      var m := SimFunction(f, orc, n);
      if m >= n {
        RunAdd(blocks, orc, start, n, m - n);
        RunDone(blocks, orc, Done(end, h), m - n);
      } else {
        RunAdd(blocks, orc, start, m, n - m);
        RunDone(blocks, orc, Run(blocks, orc, start, m), n - m);
      }
      assert ExecFunction(f, orc, n) == Finished(end, h);
    }
  }

  /** After `least` steps or more, the history of the blocks is `h`. */
  ghost predicate Reaches(blocks: seq<Block>, orc: Oracle, least: nat, h: History) {
    exists n: nat :: n >= least && Run(blocks, orc, At(ENTRY, 0, []), n).h == h
  }

  /** A call that never finishes keeps the blocks running for ever, through the same history. */
  lemma DivergenceCorrect(f: FuncDecl, orc: Oracle)
    requires Covered(f)
    requires forall fuel: nat :: ExecFunction(f, orc, fuel).Unfinished?
    ensures forall n: nat :: Run(EmitFunction(f).blocks, orc, At(ENTRY, 0, []), n).At?
    ensures forall fuel: nat :: Reaches(EmitFunction(f).blocks, orc, fuel, ExecFunction(f, orc, fuel).h)
  {
    var blocks := EmitFunction(f).blocks;
    var start := At(ENTRY, 0, []);
    forall n: nat
      ensures Run(blocks, orc, start, n).At?
    {
      assert ExecFunction(f, orc, n).Unfinished?;
      var m := SimFunction(f, orc, n);
      if Run(blocks, orc, start, n).Done? {
        RunAdd(blocks, orc, start, n, m - n);
        RunDone(blocks, orc, Run(blocks, orc, start, n), m - n);
      }
    }
    forall fuel: nat
      ensures Reaches(blocks, orc, fuel, ExecFunction(f, orc, fuel).h)
    {
      assert ExecFunction(f, orc, fuel).Unfinished?;
      var n := SimFunction(f, orc, fuel);
    }
  }

  /** Lowering a body says `open` exactly when none of the body's own statements is a jump. */
  lemma {:induction false} OpenExactly(ss: seq<Stmt>, frames: seq<Frame>, loops: seq<Loop>, g: Gen)
    requires frames != []
    ensures EmitStmts(ss, frames, loops, g).open <==> FallsThrough(ss)
    decreases |ss|
  {
    if ss != [] {
      EmitStmtsUnfold(ss, frames, loops, g);
      if !ss[0].Return? && !ss[0].Control? {
        OpenExactly(ss[1..], StepFrames(ss[0], frames), loops, StepStmt(ss[0], frames, loops, g));
        assert forall i :: 0 < i < |ss| ==> ss[i] == ss[1..][i - 1];
        assert forall i :: 0 <= i < |ss[1..]| ==> ss[1..][i] == ss[i + 1];
      }
    }
  }

  /** A function's blocks all end in their only terminator if and only if it is a void function
      whose body falls through, or a non-void one whose body does not: the backend adds `ret void`
      to every void function, also after a final `return`, and nothing to the others. */
  lemma FunctionBlocks(f: FuncDecl)
    requires Covered(f)
    ensures (forall b :: b in EmitFunction(f).blocks ==> ClosedBlock(b)) <==> (f.isVoid <==> FallsThrough(f.body.stmts))
  {
    var blocks := EmitFunction(f).blocks;
    var g1 := MoveTo(EmitPieces(Prologue(f.params), FRESH_FUNCTION), CODE);
    var e := EmitBody(f.body, [], [], g1);
    CodeReady(f);
    TidyBody(f.body, [], [], false, g1);
    EmitBodyGrows(f.body, [], [], g1);
    OpenExactly(f.body.stmts, [Frame(f.body.id, [])] + [], [], g1);
    EntryBlock(f);
    EntryClosed(f);
    var last := blocks[e.g.pos];
    forall i | 0 <= i < |blocks| && i != e.g.pos
      ensures ClosedBlock(blocks[i])
    {
      if i != ENTRY {
        assert blocks[i] == e.g.blocks[i];
      }
    }
    assert last in blocks;
    if f.isVoid {
      assert last == e.g.blocks[e.g.pos] + [Ret(None)];
      if e.open {
        CloseBlock(e.g.blocks[e.g.pos], Ret(None));
      } else {
        assert last[..|last| - 1] == e.g.blocks[e.g.pos];
        assert IsTerminator(last[..|last| - 1][|last| - 2]);
      }
    } else {
      assert last == e.g.blocks[e.g.pos];
      if e.open && last != [] {
        assert !IsTerminator(last[|last| - 1]);
      }
    }
  }

  /** A void function that returns at its end: the block of the `return` has two terminators. */
  lemma VoidReturnTwice()
    ensures var f := FuncDecl([], true, Body(0, [Return(1, None)]));
      Covered(f) && exists b <- EmitFunction(f).blocks :: !ClosedBlock(b)
  {
    var f := FuncDecl([], true, Body(0, [Return(1, None)]));
    assert f.body.stmts[1..] == [];
    assert f.body.stmts[0] == Return(1, None);
    FunctionBlocks(f);
  }

  lemma {:induction false} StraightOpen(ps: seq<Piece>)
    ensures OpenBlock(Straight(ps))
  {
    if ps != [] {
      StraightOpen(ps[1..]);
      assert forall k :: 0 < k < |Straight(ps)| ==> Straight(ps)[k] == Straight(ps[1..])[k - 1];
    }
  }

  lemma EntryClosed(f: FuncDecl)
    requires Covered(f)
    ensures ClosedBlock(EmitFunction(f).blocks[ENTRY])
  {
    var entry := EmitFunction(f).blocks[ENTRY];
    var args := Straight(Prologue(f.params));
    EntryBlock(f);
    StraightOpen(Prologue(f.params));
    forall k | 0 <= k < |entry| - 1
      ensures !IsTerminator(entry[k])
    {
      if k < |args| {
        assert entry[k] == entry[..|args|][k];
      }
    }
  }

  // ---------- analysis and lowering together ----------

  /** Lowers an analysed function; the entry block is closed last, when all slots are in it. */
  method EmitFuncDecl(f: FuncDecl, notes: Notes) returns (blocks: seq<Block>)
    requires Covered(f) && AnnotatedBody(notes, f.body, [], [])
    ensures blocks == EmitFunction(f).blocks
  {
    var llvm := new Backend.LlvmBackend(notes);
    var i := 0;
    while i < |f.params|
      invariant 0 <= i <= |f.params| && llvm.Valid() && llvm.notes == notes && fresh(llvm)
      invariant EmitPieces(Prologue(f.params), FRESH_FUNCTION) == EmitPieces(Prologue(f.params[i..]), llvm.State())
    {
      ghost var g := llvm.State();
      llvm.BuildAlloca(f.params[i].slot);
      llvm.Build(Act(f.params[i].store));
      ParamStep(f.params[i..], g);
      assert f.params[i..][1..] == f.params[i + 1..];
      i := i + 1;
    }
    llvm.Position(CODE);
    var open := llvm.LowerBody(f.body, [], [], false);
    if f.isVoid {
      llvm.Build(Ret(None));
    }
    llvm.builder := ENTRY;
    llvm.Build(Br(CODE));
    assert llvm.State() == EmitFunction(f);
    return llvm.blocks;
  }

  lemma ParamStep(ps: seq<Param>, g: Gen)
    requires ps != []
    ensures EmitPieces(Prologue(ps), g) == EmitPieces(Prologue(ps[1..]), Append(AppendSlot(g, ps[0].slot), Act(ps[0].store)))
  {
    var pieces := Prologue(ps);
    assert pieces[0] == Slot(ps[0].slot) && pieces[1..][0] == Do(ps[0].store) && pieces[1..][1..] == Prologue(ps[1..]);
  }

  /** What analysis accepts is covered, as long as jumps in a defer stay inside it. */
  lemma AcceptedIsCovered(f: FuncDecl)
    requires DistinctBody(f.body) && StaysBody(f.body, [], false) && Analysis.ResolvesBody(f.body, [])
    ensures Covered(f)
  {
    var loops: seq<Loop> := [];
    assert loops + loops == loops;
    Analysis.BodyConfined(f.body, loops, loops, false);
  }

  /** In every run of an analysed function, every jump that is made, whether it leaves the function, is
      caught by a loop or happens in a defer being replayed, was given by analysis the loop it goes to and
      the defers that the run-time stack holds down to there. */
  lemma JumpsNoted(f: FuncDecl, notes: Notes, orc: Oracle, fuel: nat)
    requires Covered(f) && AnnotatedBody(notes, f.body, [], [])
    ensures var h := AfterPieces(Prologue(f.params), []);
      && Runtime.AllNoted(notes, Runtime.JumpsOfBody(f.body, [], [], false, orc, h, fuel))
      && Runtime.Among(ExecBody(f.body, [], orc, h, fuel), Runtime.JumpsOfBody(f.body, [], [], false, orc, h, fuel))
  {
    Runtime.NotedBody(notes, f.body, [], [], false, orc, AfterPieces(Prologue(f.params), []), fuel);
  }

  /** A function is compiled exactly when each of its jumps has the loop it names around it and no loop is
      inside one of its name. Then the theorems above cover it, and the blocks are those they are about. */
  method CompileFunction(f: FuncDecl) returns (ok: bool, notes: Notes, blocks: seq<Block>)
    requires DistinctBody(f.body) && StaysBody(f.body, [], false)
    ensures ok <==> Resolution.AllAllowed(Resolution.UsesOfBody(f.body, []))
    ensures ok <==> Analysis.ResolvesBody(f.body, [])
    ensures ok ==> Covered(f) && AnnotatedBody(notes, f.body, [], []) && blocks == EmitFunction(f).blocks
  {
    Resolution.BodyResolves(f.body, []);
    assert Resolution.NamesOf([]) == [];
    var sema := new Analysis.SemaModule();
    sema.AnalyzeBody(f.body);
    notes := sema.notes;
    if sema.failed {
      return false, notes, [];
    }
    AcceptedIsCovered(f);
    blocks := EmitFuncDecl(f, notes);
    return true, notes, blocks;
  }
}
