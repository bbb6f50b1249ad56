# Proofs about the Hob compiler

Hob is a small language with a compiler written in C. This project models six pieces of that compiler
in Dafny and proves what each of them is for. The command for the whole project is

    dafny verify dfyconfig.toml

| part | files | main results |
|---|---|---|
| Control flow with `defer` | Syntax, Defers, Emission, Growth, Annotations, Analysis, Resolution, Backend, Semantics, Simulation, Discipline, Compiler, Slots, Laws, Lowered, Runtime, Conservation | the basic blocks of a function behave like its statements; which functions are accepted, and which of those have well-formed blocks; every stack slot that is asked for is there; for every jump of every run, the defers noted by analysis are those the run-time stack holds; every defer that was reached runs once |
| Expression parser and printer | ExprTree, ExprNode, Grammar, Parser, Chains, Reading, Precedence, Printer | what the parser accepts and which tree it builds, both ways; which operator takes the operand between two; rotation in place; printing and parsing again |
| Types and declarations | Types, Likeness, Decls | equality is equality after substitution, exactly when, and is that nothing inside differs; equal types are laid out alike; lookups do not depend on order |
| Behaviours | Behaviours, BehaviourTable, Conformance, Behaving | the path that the search returns and the table that the type is given agree; a table is built without error exactly if the type conforms |
| Constant folding | Bits, Folding | folding on 64 bits and cutting later is run-time arithmetic at every node exactly where a guard holds, and always for expressions that can be told by their look; what each operator computes |
| Module loading | Paths, Imports, Sites, Projects | each module once, after all it needs, and exactly those, which is a fixed point; working directory restored |

## How it is built

Code that changes state in C is a class or a method with loops here (`Analysis.SemaModule`,
`Backend.LlvmBackend`, `ExprNode.AstExpr`, `Parser.Parser`, `Printer.Printer`, `Decls.ModuleDecls`,
`Behaviours.Resolver`, `Behaving.Behaving`, `Projects.Project`). Each method is proved equal to a function
of its inputs and the old state, and the theorems are about those functions.

Control flow. A function body is a tree of statements. Expressions are sequences of actions and requests
for stack slots, ending in a value; an oracle answers conditions from the history so far. `Semantics` runs
statements with a run-time stack of defers, and runs blocks one instruction at a time. `Emission` is the
back end as a function from statements to blocks. Syntax nodes carry numbers that stand for their addresses.

Parser. The parser class works on tokens with one token of pushback and allocates nodes. `Grammar` is the
same parser as a function on the tokens to come; `Chains` is an independent grammar of operands joined by
operators, whose tree is defined by inserting operands one by one from the left.

Types are nodes of a graph, because a generic is replaced after others point at it. A depth map witnesses
that no type contains itself; where the C code would recurse for ever the model does not apply.

What is abstract: LLVM is a growing list of blocks; the file system is a tree without links, in which each
file tells whether it parses and whether its declarations are sound given which of its imports were found.

## What was found

These are properties that one might expect and that the code does not have; lemmas say exactly how where it matters.

- A void function gets `ret void` even after a body that ends in a jump, so its last block has two
  terminators (`Compiler.VoidReturnTwice`), and a non-void function whose body falls through has a block
  without one. `Compiler.FunctionBlocks` says exactly when all blocks are well formed.
- Falling out of a body replays its defers in the order written, jumping out of it in reverse order
  (`Semantics.Unwind`); `return` evaluates its value after the defers.
- An atom written right after an operand silently replaces it: `1 2 + 3` is read as `2 + 3`. The grammar
  has a form for this (`Chains.Dropping`), without which it would not be what the parser accepts.
- `%` has no entry in the table of priorities and so binds like a comparison.
- A generic that is replaced by a generic that is replaced by an open one is equal to the open one after
  substitution, but not to the analyser (`Types.LongChainDiffers`; exactly when, `Types.EqualityExact`).
- Folding counts a shift before it is cut to its type, and a widened constant keeps bits that its own type
  does not have (`Folding.ShiftGuardNeeded`, `Folding.CastGuardNeeded`; exactly when, `Folding.GuardExact`).
- A file named directly from the root, such as `/x`, is loaded without changing to the root, so its imports
  are resolved in the wrong place unless that is where the compiler is (`Paths.RootFileMisplaced`; exactly
  when, `Paths.BaseIsParent`).
- A loop whose name is taken is reported and not pushed, but is popped all the same, so a loop around it
  goes missing from the stack; popping an empty stack, which aborts the compiler, does nothing here. All
  results about analysis are for runs without errors, and `failed` itself is exact.

## Model

| member | source | states |
|---|---|---|
| Compiler.FunctionCorrect | src/llvm/parts/decls/func_decl.c:9-37 | the emitted blocks finish with an end and a history of actions and tests if and only if the function does |
| Compiler.DivergenceCorrect | src/llvm/parts/body.c:17-42 | a call that never finishes keeps the blocks running for ever through the same histories |
| Compiler.FunctionBlocks | src/llvm/parts/decls/func_decl.c:27-36 | every block ends in its only terminator if and only if the function is void exactly when its body falls through |
| Compiler.OpenExactly | src/llvm/parts/body.c:23-42 | lowering reports a body as open exactly when none of its own statements is a jump |
| Compiler.EmitFuncDecl | src/llvm/parts/decls/func_decl.c:9-37 | lowering an analysed function through the builder gives the blocks of the theorems |
| Compiler.CompileFunction | src/sema/module/parts/body.c:17-43 | a function whose defers keep their jumps inside is compiled if and only if every unnamed jump has a loop around it, every named one a loop of its name, and no named loop is inside one of its name; then the theorems cover it, its notes are complete, and the blocks are those of the theorems |
| Resolution.BodyResolves | src/sema/module/loop/api.c:42-77 | analysis refuses a body for those uses of loops and for nothing else, wherever in the body they are |
| Compiler.AcceptedIsCovered | src/sema/module/parts/stmts/loop_control.c:6-15 | an analysis without errors leads to what the theorems ask for |
| Compiler.JumpsNoted | src/sema/module/private.c:88-108 | in every run of an analysed function, every jump that is made, also one that a loop catches or one in a replayed defer, was given the loop it goes to and the defers that the run-time stack holds down to there |
| Compiler.VoidReturnTwice | src/llvm/parts/decls/func_decl.c:31-33 | a function whose last block has two terminators |
| Slots.PiecesParted | src/llvm/utils/alloca.c:5-10 | the current block gets the actions of an expression and the definitions block its slots, each in the order written, and nothing else changes |
| Slots.BodyAdds | src/llvm/parts/body.c:23-42 | lowering a body adds to the definitions block exactly one slot for each that is asked for, copies of replayed defers included, in order |
| Slots.EntrySlots | src/llvm/parts/decls/func_decl.c:9-37 | the entry block is the slot and the store of each parameter, the slots of the body, and the jump to the code |
| Laws.EndRunsForwards | src/llvm/parts/body.c:40 | a body left at its end runs its defers in the order written |
| Laws.JumpRunsBackwards | src/sema/module/private.c:92-108 | a body left by a jump runs them in the opposite order |
| Laws.ReturnValueLast | src/llvm/parts/stmts/return.c:6-16 | `return` evaluates its value after all defers |
| Laws.GoesRound | src/llvm/parts/stmts/while.c:7-24 | a loop does its body for as long as its test says yes, and stops at the first no |
| Laws.BreakEndsLoop | src/llvm/parts/stmts/break.c:8-11 | a loop whose body is a `break` tests once |
| Laws.ContinueEndsRound | src/llvm/parts/stmts/continue.c:8-11 | a loop whose body is a `continue` is a loop with nothing to do |
| Laws.OtherNamePasses | src/sema/module/loop/api.c:42-52 | a jump by another name goes through a loop |
| Laws.TakesFirst | src/llvm/parts/stmts/if.c:7-40 | tests are made in order up to the first yes, whose branch runs; without one the `else` runs |
| Lowered.IfBlocks | src/llvm/parts/stmts/if.c:7-40 | the blocks of an `if` with an `else`, in full |
| Lowered.WhileBlocks | src/llvm/parts/stmts/while.c:7-24 | the blocks of a loop, in full |
| Lowered.JumpBlocks | src/llvm/parts/stmts/break.c:8-11 | the blocks of a loop that is left or continued at once, in full |
| Analysis.BodyConfined | src/sema/module/loop/api.c:42-77 | what analysis accepts, seen from inside a defer that keeps its jumps, resolves among the loops of the defer alone |
| Simulation.SimBody | src/llvm/parts/body.c:23-42 | the blocks of a body track its run, whatever loops and pending defers surround it, to an open end or to the jump it takes |
| Simulation.SimWhile | src/llvm/parts/stmts/while.c:7-24 | the blocks of a loop track any number of rounds, with every `break` and `continue` going to the blocks of the copy it is in |
| Simulation.SimIf | src/llvm/parts/stmts/if.c:7-40 | the blocks of an `if` with its chain of alternatives track the branch that is taken |
| Simulation.SimBodies | src/llvm/parts/body.c:17-21 | replaying a list of defers tracks running them in that order |
| Simulation.SimUnwindJump | src/llvm/parts/stmts/return.c:6-16 | what a jump emits for the rest of the bodies it leaves tracks leaving them one by one |
| Simulation.BodyKeepsTargets | src/llvm/parts/stmts/while.c:11-19 | emitting a body, copies of loops in replayed defers included, leaves the targets of the loops around it alone |
| Simulation.SimCaught | src/llvm/parts/stmts/break.c:8-11 | a jump that a loop catches runs to the condition or the end block of the copy of the loop that it is in |
| Growth.EmitBodyGrows | src/llvm/parts/body.c:23-42 | emitting a body only adds: earlier blocks keep their code but for the current one and new slots in the definitions block, and only targets of its own loops change |
| Growth.EmitWhileGrows | src/llvm/parts/stmts/while.c:7-24 | the same for a loop, with its own targets set |
| Growth.EmitIfGrows | src/llvm/parts/stmts/if.c:7-40 | the same for a chain of branches |
| Discipline.TidyBody | src/llvm/parts/body.c:23-42 | of all blocks a body creates, each has one terminator, and it is last, but the current one, which is open exactly when the result says so; builder and code block agree |
| Discipline.TidyWhile | src/llvm/parts/stmts/while.c:7-24 | the same for a loop, which always ends open |
| Discipline.TidyIf | src/llvm/parts/stmts/if.c:7-40 | the same for a chain of branches |
| Discipline.TidyJump | src/llvm/parts/stmts/break.c:8-11 | a jump with its defers closes the block that it ends in |
| Growth.AppendSlotGrows | src/llvm/utils/alloca.c:5-10 | asking for a slot in the middle of an expression leaves the builder where it was |
| Runtime.NotedBody | src/sema/module/private.c:88-108 | all jumps made by a run of a body, those caught inside and those of replayed defers included, are as analysis noted them, and the one that leaves is among them |
| Runtime.NotedStmts | src/sema/module/parts/stmts/loop_control.c:13-14 | the same for a list of statements, together with what it has registered so far |
| Conservation.DeferRunsOnce | src/llvm/parts/body.c:40 | leaving a body, by whatever way, runs a defer once more if the run got to it and not at all otherwise |
| Conservation.ReplaysEnd | src/llvm/parts/body.c:17-21 | replaying defers that make no jumps never leaves by a jump |
| Conservation.ExecConcat | src/sema/module/parts/body.c:20-41 | running a list of statements is running its beginning and then the rest, with the defers held so far |
| Annotations.DeferLocal | src/sema/module/parts/stmts/defer.c:5-8 | notes made for a defer body where it stands serve every place where it is replayed |
| Analysis.SemaModule.DefersUpTo | src/sema/module/private.c:88-108 | the walk along the parents collects the defers of each body in reverse, innermost first, up to the one asked for |
| Analysis.SemaModule.PushDefer | src/sema/module/private.c:82-86 | a defer is added to the innermost open body and nothing else changes |
| Analysis.SemaModule.AnalyzeBody | src/sema/module/parts/body.c:17-43 | scopes are balanced, open loops keep distinct names and open bodies, and never become more; notes outside the body are untouched; without error the loop stack is balanced and the body is fully annotated; it fails exactly if some name does not resolve |
| Analysis.SemaModule.AnalyzeStmt | src/sema/module/parts/body.c:22-40 | the same for one statement, whose defer, if it is one, joins the current body |
| Analysis.SemaModule.StmtReturn | src/sema/module/parts/stmts/return.c:8-26 | a return is given the defers of all open bodies |
| Analysis.SemaModule.StmtLoopControl | src/sema/module/parts/stmts/loop_control.c:6-15 | a jump is given the loop it names, or the innermost, and the defers up to that loop's body; it fails exactly when there is none |
| Analysis.SemaModule.StmtWhile | src/sema/module/parts/stmts/while.c:10-25 | the loop is on the stack for its body and off it afterwards; it fails exactly when its name is taken or its body fails |
| Analysis.SemaModule.StmtDefer | src/sema/module/parts/stmts/defer.c:5-8 | the body of a defer is analysed before the defer is registered |
| Analysis.SemaModule.AnalyzeIf | src/sema/module/parts/stmts/if_else.c:20-28 | all branches are analysed in order, each in the scopes of the statement |
| Analysis.SemaModule.PushLoop | src/sema/module/loop/api.c:42-53 | a loop is pushed unless another on the stack has its name |
| Analysis.SemaModule.TryNamedLoop | src/sema/module/loop/api.c:30-40 | finds the loop of a name |
| Defers.FindLoopPush | src/sema/module/loop/api.c:30-40 | a new loop with a fresh name is found by it and hides no other named loop |
| Defers.NamesDistinctPush | src/sema/module/loop/api.c:42-53 | names on the stack stay distinct |
| Defers.FindLoopOnly | src/sema/module/loop/api.c:71-77 | with distinct names, a name denotes the one open loop that has it |
| Analysis.SemaModule.PushBodyScope | src/sema/module/scopes/private.c:32-44 | the parent of the new body is the body of the scope below |
| Analysis.ChainPush | src/sema/module/scopes/private.c:32-44 | scopes remain a chain in which following parents visits the bodies from the innermost out |
| Backend.LlvmBackend.LowerBody | src/llvm/parts/body.c:23-42 | the builder emits what the function of the same statements says, reading defers and targets from the notes |
| Backend.LlvmBackend.BodyBreak | src/llvm/parts/body.c:17-21 | replays a list of defer bodies, each as if it stood alone |
| Backend.LlvmBackend.StmtReturn | src/llvm/parts/stmts/return.c:6-16 | emits the defers, then the value, then the return |
| Backend.LlvmBackend.StmtLoopControl | src/llvm/parts/stmts/continue.c:8-11 | emits the defers, then a branch to the loop's current block for it |
| Backend.LlvmBackend.StmtWhile | src/llvm/parts/stmts/while.c:7-24 | emits the three blocks of a loop and records its targets |
| Backend.LlvmBackend.StmtIf | src/llvm/parts/stmts/if.c:7-40 | emits the chain of branches |
| Backend.LlvmBackend.BuildAlloca | src/llvm/utils/alloca.c:5-10 | puts the slot at the end of the definitions block, changes no other block, and returns to the code block |
| ExprTree.PushDownKeeps | src/parser/parts/expr.c:51-64 | the rotation keeps the operands and operators and their order |
| ExprTree.PushDownForm | src/parser/parts/expr.c:45-49 | with precedence right on the right side, the rotation makes the whole tree right if and only if the left side is right and binds tightly enough |
| ExprTree.SamePrecForm | src/parser/parts/expr.c:17-36 | at most one tree in precedence form has given operands and operators |
| ExprTree.ReferenceForm | src/parser/parts/expr.c:17-36 | inserting operands from the left gives that tree |
| ExprTree.PushDownIsReference | src/parser/parts/expr.c:67-76 | building with the whole rest on the right and rotating gives the left-associative precedence tree |
| ExprNode.AstExpr.PushDown | src/parser/parts/expr.c:17-65 | in place: the same nodes carry the rotated tree afterwards; only the node and the unscoped left edge of its right child are written |
| ExprNode.AstExpr.Rotate | src/parser/parts/expr.c:51-62 | one exchange of operators and sides between a node and its right child |
| Parser.Parser.Step | src/parser/private.c:9-15 | takes the token put back, or the next one |
| Parser.Parser.NextIs | src/parser/private.c:40-46 | consumes the next token exactly when it is the one asked for |
| Parser.Parser.ParsePath | src/parser/parts/path.c:14-66 | reads the longest path |
| Parser.Parser.ParseExpr | src/parser/parts/expr.c:135-350 | the loop over tokens and nodes returns the tree that the grammar's parser gives and leaves the same tokens, the stop among them; it fails exactly when that does, and reports an error exactly when it fails |
| Parser.Parser.ParseOperand | src/parser/parts/expr.c:153-302 | one case of the loop: atoms, calls, indexes, parentheses |
| Parser.Parser.ParseSuffixes | src/parser/parts/expr.c:305-344 | all `as` and `.` that follow an operand |
| Parser.Parser.ParseCallArgs | src/parser/parts/expr.c:108-128 | arguments up to and including the closing bracket |
| Parser.Parser.MakeBinop | src/parser/parts/expr.c:67-76 | the right side is everything up to the stop; the result is rotated |
| Reading.ParserReadsGrammar | src/parser/parts/expr.c:135-350 | parsing succeeds with a tree and a rest if and only if the tokens are a sentence of the grammar, the tree is its precedence tree, and a stop token heads the rest |
| Reading.TokensMean | src/parser/parts/expr.c:169-228 | what a literal or a name is read as |
| Reading.SegmentsMean | src/parser/parts/path.c:14-66 | what a path goes on with: a name, `null`, `sizeof`, or `*` for the pointer's target |
| Reading.ReadsUpTo | include/parser/token_stops.h:6-11 | a sentence is read up to a token exactly if the caller lets expressions end there |
| Precedence.MiddleOperand | src/parser/parts/expr.c:18-36 | of two operators the second takes the operand between them if and only if it is in a tighter class, the first otherwise; the classes are listed |
| Precedence.ReadByClass | src/parser/parts/expr.c:17-65 | in whatever is read, operators nest by class and to the left within a class, and no other tree over the same operands and operators does |
| Reading.ChainReads | src/parser/parts/expr.c:135-350 | every sentence is read up to any stop as its own tree |
| Reading.OnlySentences | src/parser/parts/expr.c:135-350 | whatever is read was a sentence |
| Reading.PathReads | src/parser/parts/path.c:14-66 | a path is read whole if no dot follows it |
| Reading.AtomContinues | src/parser/parts/expr.c:169-228 | an atom right after an operand replaces it |
| Chains.TreeIsPrecedenceForm | src/parser/parts/expr.c:17-36 | a tree is that of a sentence if and only if it is in precedence form over the sentence's operands and operators |
| Printer.Printer.PrintExpr | src/print/ast/expr.c:66-155 | appends the tokens of the tree and nothing else |
| Printer.PrintThenParse | src/print/ast/expr.c:66-155 | parsing what was printed gives the tree with every operator marked as parenthesised |
| Printer.RoundTrip | src/print/ast/expr.c:66-155 | the tree read back is the tree printed, up to those marks |
| Printer.PrintedAlike | src/print/ast/expr.c:130 | trees that are printed alike differ in those marks alone |
| Printer.ParsedReparses | src/print/ast/expr.c:66-155 | whatever was parsed, index expressions aside, can be printed and is read back |
| Types.EqualSameShape | src/sema/module/type/api.c:6-79 | types accepted as equal are equal after substitution |
| Types.SameShapeEqual | src/sema/module/type/api.c:6-79 | types equal after substitution are accepted, if nothing in them is open or no chain of replacements is long |
| Types.EqualityExact | src/sema/module/type/api.c:19-27 | equality is equality after substitution for all types if and only if no generic reaches an open one by way of another generic |
| Types.LongChainDiffers | src/sema/module/type/api.c:20-24 | two types equal after substitution that the analyser tells apart |
| Types.ClosedIsExact | src/sema/module/type/api.c:6-79 | it is when every replacement ends in a concrete type |
| Types.EqualityIsEquivalence | src/sema/module/type/api.c:6-79 | reflexive, symmetric, transitive |
| Types.ResolveType | src/llvm/parts/type.c:22-74 | the LLVM type depends on the substituted type alone |
| Types.EqualSameLayout | src/llvm/parts/type.c:22-74 | types accepted as equal have the same layout, and one can be lowered if the other can |
| Types.FixedKeepsShape | src/sema/module/type/api.c:19-27 | a type that reaches no generic stays the same whatever is done to generics |
| Likeness.EqualsIsLikeness | src/sema/module/type/api.c:6-79 | where no chain of generics is long, two types are equal if and only if looking inside them side by side never comes to anything that differs |
| Likeness.LayoutByKind | src/llvm/parts/type.c:22-74 | through any generics, the LLVM type of each kind of type, part by part |
| Decls.ModuleDecls.ResolveInType | src/sema/module/private.c:29-43 | finds the first declaration of the name and owner |
| Decls.ModuleDecls.Push | src/sema/module/private.c:133-143 | adds a declaration unless one answers to its name and owner; no two do, and public ones are among all |
| Decls.ModuleDecls.AppendFrom | src/sema/module/private.c:110-126 | after an import every declaration of its kind has an answer, and nothing else came in; of a public import, just what came in becomes public as well |
| Decls.ModuleDecls.ResolvePublic | src/sema/module/private.c:71-79 | what is found among the public declarations is what is found among all |
| Decls.FindAnyOrder | src/sema/module/private.c:29-43 | a lookup gives the same for any order of the list |
| Decls.FindEqualTypes | src/sema/module/private.c:29-43 | a lookup gives the same for equal owner types |
| Decls.DistinctKept | src/sema/module/private.c:133-143 | replacing generics later disturbs none of this |
| Behaviours.SearchFinds | src/sema/module/behaviour/api.c:10-44 | the search finds a rule exactly when there is one of the name, it finds the first in order, and its path leads there |
| Behaviours.Resolver.Resolve | src/sema/module/behaviour/api.c:46-60 | the path, built from its end and turned round in place, is the one from the top; a failed search leaves none |
| Behaviours.Resolver.ResolveList | src/sema/module/behaviour/api.c:10-23 | a failed branch leaves the path as it was |
| Behaviours.Resolver.TurnRound | src/sema/module/behaviour/api.c:52-58 | swapping from both ends reverses |
| BehaviourTable.PathFitsTable | src/llvm/parts/path.c:104-120 | the path found for a name walks through any table built without error and ends at what was found for the first rule of that name |
| BehaviourTable.PathAgrees | src/sema/module/behaviour/table.c:8-64 | the walk never fails its assertion and ends at a function of that name, of the type asked for, whose type is the rule's with Self replaced |
| BehaviourTable.AnswerStays | src/sema/module/behaviour/table.c:20-25 | what was checked for a rule while some Selfs were replaced holds when all are |
| BehaviourTable.UntouchedEquals | src/sema/module/type/api.c:6-79 | equality looks only at what the two types are made of |
| Conformance.BuildExact | src/sema/module/behaviour/table.c:8-64 | a table is built without error if and only if, for every rule however deep it is nested, the first function of the type that has its name has its type, with Self replaced |
| Conformance.AnyFunction | src/sema/module/private.c:29-43 | where no two functions could be confused, any function of the type with that name and type will do |
| Behaving.Behaving.BehavesAsDecl | src/sema/module/behaviour/table.c:8-33 | one table of functions, with Self replaced in the types as the loop goes |
| Behaving.Behaving.BuildTable | src/sema/module/behaviour/table.c:35-64 | the nested tables, the types afterwards, and that an error is flagged exactly if the type does not conform |
| Behaving.Behaving.WalkPath | src/llvm/parts/path.c:104-120 | the walk over the path and what it does to the types |
| Behaving.WalkReplaces | src/llvm/parts/path.c:104-120 | the walk replaces every Self on the path by the generic, and nothing else |
| Bits.CutTwice | src/llvm/parts/expr.c:44-47 | cutting to 64 bits first changes nothing |
| Bits.CutProduct | src/sema/module/parts/exprs/binop.c:27 | products cut before or after are the same |
| Bits.CutBitwise | src/sema/module/parts/exprs/binop.c:29-33 | low bits of bitwise results come from low bits of the operands |
| Folding.BitOpsBitByBit | src/sema/module/parts/exprs/binop.c:29-34 | bitwise and, or and exclusive or have a bit at each place where both operands, one of them, just one of them has, folded or run |
| Folding.ArithmeticWraps | src/sema/module/parts/exprs/binop.c:24-33 | sums, differences, products and shifts are right but for a multiple of 2^64 when folded, of 2^width when run; exactly which shifts are undefined |
| Folding.OperatorWraps | src/sema/module/parts/exprs/binop.c:98-104 | the same for an operator within an expression, on its operands in order |
| Folding.FoldedNegation | src/sema/module/parts/exprs/unary.c:14-21 | so for a folded negation |
| Folding.RunNegation | src/llvm/parts/expr.c:310-316 | and for one that is run |
| Folding.CastWraps | src/sema/module/parts/exprs/as.c:196-222 | a run-time cast keeps the number but for a multiple of 2^width |
| Folding.LiteralFits | src/llvm/parts/expr.c:46-47 | a literal is emitted as what it says exactly if it is not larger than its type's largest pattern |
| Folding.WidthIsLayout | src/llvm/parts/type.c:42-46 | constants are cut to the bits that the LLVM type has |
| Folding.FoldOpExact | src/sema/module/parts/exprs/binop.c:23-34 | one folded operator agrees with the narrow one if and only if no shift overshoots |
| Folding.CastExact | src/sema/module/parts/exprs/as.c:196-222 | a cast of a constant agrees with the run-time cast if and only if no bits spill |
| Folding.FoldExact | src/sema/module/parts/exprs/binop.c:98-104 | a guarded constant expression folds to what running it would give |
| Folding.FoldingPreserves | src/llvm/parts/expr.c:82-85 | emitted code, with constants wherever analysis left them, computes what computing every node at its own width gives |
| Folding.GuardExact | src/sema/module/parts/exprs/binop.c:98-104 | where nothing is poison, emitted code agrees with run-time arithmetic at every node if and only if the guard holds |
| Folding.PlainPreserved | src/llvm/parts/expr.c:82-85 | folding preserves every expression in which constants are shifted by literals below their width and are not widened |
| Folding.ShiftGuardNeeded | src/sema/module/parts/exprs/binop.c:33 | a shift that differs |
| Folding.CastGuardNeeded | src/sema/module/parts/exprs/as.c:216-219 | a widening cast that differs |
| Paths.SplitFilenameDir | src/core/path.c:5-16 | splits at the last slash |
| Paths.PathGoesOn | src/sema/project/api.c:12-30 | after a path to a folder, a name leads to the entry of that name, `.` and nothing to the folder, `..` to the one that it is in |
| Paths.BaseIsParent | src/sema/project/api.c:25-30 | the directory changed to is the file's own if and only if the file is not named directly from the root or the compiler is there already |
| Paths.RootFileMisplaced | src/core/path.c:5-16 | from any other folder, a file named from the root has its imports looked up in that folder |
| Paths.RootFileExample | src/sema/project/api.c:24-30 | a tree and a folder where that happens |
| Sites.SiteGraph.LoadAtHome | src/sema/project/api.c:11-57 | where no file outside the root names one in the root from there, loading with working directories is loading on the graph of imports |
| Imports.Graph.LoadAll | src/sema/project/api.c:11-57 | from nothing: exactly the sound modules that the root reaches, in order, the root last |
| Imports.Graph.ModulesSettle | src/sema/project/api.c:11-57 | of what the root reaches, just those files are modules in the end that parse and are sound given which of their imports are modules |
| Imports.Graph.ReachIsLeast | src/sema/module/parts/module.c:135-144 | what the root reaches is the least set with it that is closed under imports |
| Imports.Graph.LoadMeets | src/sema/project/api.c:11-57 | loading one more file keeps the order and adds exactly the sound modules that it reaches; it succeeds exactly if the file is sound |
| Imports.Graph.ImportsFirst | src/sema/module/parts/module.c:135-144 | a module comes after each module that it imports |
| Projects.Project.AddModuleAt | src/sema/project/api.c:11-57 | from any working directory, the modules are those of loading with the folder that is changed to, and the working directory is what it was |
| Projects.Project.LoadProject | src/main.c:29-32 | a new project: each module once, exactly the sound ones that the first file reaches, sound given which of their imports are modules, each after all that it needs, the first file last, the working directory restored |
| Projects.Project.ReadImports | src/sema/module/parts/module.c:135-144 | imports are loaded in order from within the folder of their file; one that fails does not stop the others |

## Left out

- Compiler.FunctionCorrect: programs in which a jump leaves the body of a defer are excluded (`Compiler.Covered`), although analysis accepts them: what is emitted for them depends on notes that no longer fit where the defer is replayed.
- Compiler.CompileFunction: functions with a jump that leaves its defer are excluded, as above; expressions are opaque pieces, so type errors and undefined names are not among the errors; scope declarations (src/sema/module/scopes/private.c:11-22) are not modelled, and neither are inline assembly, anonymous functions, unwrapping and `?`, which returns without running defers.
- Analysis.SemaModule.AnalyzeBody: syntax nodes are values with numbers, and what analysis writes into them is a map from those numbers; two nodes with one address are excluded.
- Backend.LlvmBackend.LowerBody: LLVM is a list of blocks of instructions; value names, types and verification by LLVM are not modelled.
- Parser.Parser.ParseExpr: prefix operators, struct, array, function, character, string and float literals, `?`, `unwrap`, generic path segments and types other than named ones are not modelled; the model rejects them. After an error the C parser may go on with a missing index expression or follow a null pointer where the model just fails.
- Printer.Printer.PrintExpr: printing is at the level of tokens, so spacing and how the lexer splits text are not modelled; index expressions, whose index is printed as the text of a placeholder, and unary and `!` expressions are excluded.
- Types.EqualityExact: a type that contains itself, for which the C recursion does not end, is excluded by the depth map.
- Decls.FindAnyOrder: owners that reach a generic are excluded, since replacing it can make two owners equal after both were accepted.
- BehaviourTable.PathAgrees: the claim about types needs rules that speak of no Self but their own, and functions and a type that speak of none.
- Behaving.Behaving.BuildTable: a depth is asked for that puts the type below every Self, which is what keeps replacing from making a type contain itself; generics with several parameters are not modelled, since the back end uses the first only.
- Folding.FoldingPreserves: division, remainder, right shift, comparisons, `~`, booleans and floats are not modelled, because folding and running use different operations for them; overflow of the 64-bit integers of the C code, which C leaves undefined, is taken to wrap around.
- Imports.Graph.LoadAll: imports that run in circles, on which the C recursion does not end, are excluded by the rank.
- Projects.Project.AddModuleAt: links in the file system, failing `getcwd`, and analysis of the loaded modules (src/sema/project/api.c:66-77) are not modelled, nor imports that run in circles.
- Projects.Project.LoadProject: files outside the root that name one in the root from there are excluded, since the order and the set of modules then depend on where each file was first named.
- Lexing, reading files, logging, the register table, target selection, object files and running the linker are not modelled.
