/** The blocks of small functions, written out. */
module Lowered {
  import opened Options
  import opened Syntax
  import opened Defers
  import opened Emission
  import opened Compiler

  function Plain(id: nat, action: nat): Body {
    Body(id, [Eval([Do(action)])])
  }

  function Void(s: Stmt): FuncDecl {
    FuncDecl([], true, Body(0, [s]))
  }

  lemma PlainEmits(id: nat, action: nat, frames: seq<Frame>, loops: seq<Loop>, g: Gen)
    ensures EmitBody(Plain(id, action), frames, loops, g) == Emitted(Append(g, Act(action)), true)
  {
    var ss := Plain(id, action).stmts;
    var inner := [Frame(id, [])] + frames;
    assert ss[0] == Eval([Do(action)]) && ss[1..] == [] && [Do(action)][1..] == [];
    assert EmitPieces([Do(action)], g) == Append(g, Act(action));
    assert EmitStmts(ss[1..], inner, loops, Append(g, Act(action))) == Emitted(Append(g, Act(action)), true);
    assert Registered(ss) == Registered(ss[1..]) == [];
  }

  /** The blocks of a function with one statement that is not a jump nor a defer. */
  lemma VoidEmits(s: Stmt)
    requires s.While? || s.If?
    ensures var frames, g := [Frame(0, [])], RawGen.Gen([[], []], CODE, CODE, ENTRY, map[]);
      var g1 := if s.While? then EmitWhile(s.loop, s.name, s.guard, s.body, frames, [], g)
                else EmitIf(s.main, s.elseIfs, s.otherwise, frames, [], g);
      EmitFunction(Void(s)).blocks == Append(Append(g1, Ret(None)).(pos := ENTRY), Br(CODE)).blocks
  {
    var f := Void(s);
    var g: Gen := RawGen.Gen([[], []], CODE, CODE, ENTRY, map[]);
    var inner := [Frame(0, [])] + [];
    assert inner == [Frame(0, [])];
    assert MoveTo(EmitPieces(Prologue(f.params), FRESH_FUNCTION), CODE) == g;
    assert f.body.stmts[0] == s && f.body.stmts[1..] == [];
    assert Registered(f.body.stmts) == Registered(f.body.stmts[1..]) == [];
    var g1 := if s.While? then EmitWhile(s.loop, s.name, s.guard, s.body, inner, [], g)
              else EmitIf(s.main, s.elseIfs, s.otherwise, inner, [], g);
    assert EmitStmts(f.body.stmts[1..], inner, [], g1) == Emitted(g1, true);
    assert EmitStmts(f.body.stmts, inner, [], g) == Emitted(g1, true);
    assert EmitBody(f.body, [], [], g) == Emitted(g1, true);
  }

  /** A test goes to the branch or to the alternative, and both go on to the end. */
  lemma IfBlocks(test: nat, yes: nat, no: nat)
    ensures EmitFunction(Void(If(Clause(Operand([], test), Plain(1, yes)), [], Some(Plain(2, no))))).blocks ==
            [[Br(1)], [CondBr(test, 2, 3)], [Act(yes), Br(4)], [Act(no), Br(4)], [Ret(None)]]
  {
    var main := Clause(Operand([], test), Plain(1, yes));
    var frames := [Frame(0, [])];
    var g: Gen := RawGen.Gen([[], []], CODE, CODE, ENTRY, map[]);
    var g0 := AppendThree(g);
    assert g0.blocks == [[], [], [], [], []];
    var g1 := MoveTo(Append(g0, CondBr(test, 2, 3)), 2);
    assert [] + [CondBr(test, 2, 3)] == [CondBr(test, 2, 3)];
    assert g1.blocks == [[], [CondBr(test, 2, 3)], [], [], []];
    PlainEmits(1, yes, frames, [], g1);
    var g2 := MoveTo(Append(Append(g1, Act(yes)), Br(4)), 3);
    assert [] + [Act(yes)] + [Br(4)] == [Act(yes), Br(4)];
    assert g2.blocks == [[], [CondBr(test, 2, 3)], [Act(yes), Br(4)], [], []];
    assert EmitArm(main, 2, 3, 4, frames, [], g0) == g2;
    PlainEmits(2, no, frames, [], g2);
    var g3 := MoveTo(Append(Append(g2, Act(no)), Br(4)), 4);
    assert [] + [Act(no)] + [Br(4)] == [Act(no), Br(4)];
    assert g3.blocks == [[], [CondBr(test, 2, 3)], [Act(yes), Br(4)], [Act(no), Br(4)], []];
    assert EmitIf(main, [], Some(Plain(2, no)), frames, [], g) == g3;
    VoidEmits(If(main, [], Some(Plain(2, no))));
    assert [] + [Ret(None)] == [Ret(None)] && [] + [Br(1)] == [Br(1)];
  }

  /** A loop's condition is tested in a block of its own, to which the body goes back. */
  lemma WhileBlocks(test: nat, action: nat)
    ensures EmitFunction(Void(While(1, None, Operand([], test), Plain(2, action)))).blocks ==
            [[Br(1)], [Br(2)], [CondBr(test, 3, 4)], [Act(action), Br(2)], [Ret(None)]]
  {
    var g: Gen := RawGen.Gen([[], []], CODE, CODE, ENTRY, map[]);
    var g1 := OpenedLoop(test);
    PlainEmits(2, action, [Frame(0, [])], [] + [Loop(1, None, 2)], g1);
    var g2 := MoveTo(Append(Append(g1, Act(action)), Br(2)), 4);
    assert [] + [Act(action)] + [Br(2)] == [Act(action), Br(2)];
    assert g2.blocks == [[], [Br(2)], [CondBr(test, 3, 4)], [Act(action), Br(2)], []];
    assert EmitWhile(1, None, Operand([], test), Plain(2, action), [Frame(0, [])], [], g) == g2;
    VoidEmits(While(1, None, Operand([], test), Plain(2, action)));
    assert [] + [Ret(None)] == [Ret(None)] && [] + [Br(1)] == [Br(1)];
  }

  lemma OpenedLoop(test: nat) returns (g1: Gen)
    ensures g1 == OpenWhile(1, Operand([], test), RawGen.Gen([[], []], CODE, CODE, ENTRY, map[]))
    ensures g1 == RawGen.Gen([[], [Br(2)], [CondBr(test, 3, 4)], [], []], 3, 3, ENTRY, map[1 := LoopBlocks(2, 4)])
  {
    var g: Gen := RawGen.Gen([[], []], CODE, CODE, ENTRY, map[]);
    g1 := OpenWhile(1, Operand([], test), g);
    assert AppendThree(g).blocks == [[], [], [], [], []];
    assert [] + [Br(2)] == [Br(2)] && [] + [CondBr(test, 3, 4)] == [CondBr(test, 3, 4)];
    assert g1.blocks == [[], [Br(2)], [CondBr(test, 3, 4)], [], []];
    assert g1.targets == map[1 := LoopBlocks(2, 4)];
  }

  /** `break` goes to the block after the loop, `continue` to that of the condition. */
  lemma JumpBlocks(test: nat, isBreak: bool)
    ensures EmitFunction(Void(While(1, None, Operand([], test), Body(2, [Control(3, isBreak, None)])))).blocks ==
            [[Br(1)], [Br(2)], [CondBr(test, 3, 4)], [Br(if isBreak then 4 else 2)], [Ret(None)]]
  {
    var g: Gen := RawGen.Gen([[], []], CODE, CODE, ENTRY, map[]);
    var body := Body(2, [Control(3, isBreak, None)]);
    var loops := [] + [Loop(1, None, 2)];
    var frames := [Frame(0, [])];
    var inner := [Frame(2, [])] + frames;
    var g1 := OpenedLoop(test);
    assert loops == [Loop(1, None, 2)] && GoalOf(Leave(isBreak, None), loops) == ToLoop(Loop(1, None, 2));
    assert DefersUpTo(inner, Some(2)) == [];
    var g2 := Append(g1, Br(if isBreak then 4 else 2));
    assert body.stmts[0] == Control(3, isBreak, None);
    assert EmitStmts(body.stmts, inner, loops, g1) == Emitted(EmitJump(Leave(isBreak, None), ToLoop(Loop(1, None, 2)), [], g1), false);
    assert EmitBodies([], g1) == g1;
    assert EmitBody(body, frames, loops, g1) == Emitted(g2, false);
    assert [] + [Br(if isBreak then 4 else 2)] == [Br(if isBreak then 4 else 2)];
    assert g2.blocks == [[], [Br(2)], [CondBr(test, 3, 4)], [Br(if isBreak then 4 else 2)], []];
    assert EmitWhile(1, None, Operand([], test), body, frames, [], g) == MoveTo(g2, 4);
    VoidEmits(While(1, None, Operand([], test), body));
    assert [] + [Ret(None)] == [Ret(None)] && [] + [Br(1)] == [Br(1)];
  }
}
