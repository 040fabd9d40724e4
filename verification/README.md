# Yidi backends, runtime and loader: a verified model

Yidi programs run in two ways: a tree-walking interpreter, and LLVM code emitted as text and linked
with a runtime written in C. This project models the parts of the repository where that machinery is
intricate, and proves what they promise.

* **Compiler against interpreter.** `Interp` and the class `InterpreterObject.Interpreter` give the
  integer fragment its meaning on a stack of frames; `Codegen` and the class `Emitter.LlvmCodegen`
  emit labelled code for it; `Ir` is the machine that runs the code. The main theorem,
  `CompilerCorrect.SameOutput`, is about every program that finishes in the interpreter without an
  error and without one of two noted disagreements: LLVM takes its text exactly when no name is
  declared twice, and then the compiled program prints exactly the same, and nothing else.
  `CodegenNames` counts how often each register and label is defined, `CodegenPaths` follows every
  path through the code.
* **Runtime.** The lock-free handler queue as a state machine over single steps of any number of
  threads; the route trie against a greedy walk over the list of registrations; the WebSocket and
  HTTP/2 frame parsers against a function of the byte stream, for every split into chunks; HPACK
  integers, base64 and the slot pool, over real arrays.
* **The interpreter's own structures.** Frame discipline over whole runs, pattern matching, value
  equality and set operations, method lookup through the inline cache, and vtables.
* **Module loader.** A depth-first search that succeeds exactly when every reachable module is sound
  and no reachable module lies on a cycle.
* **Handler compiler.** `FnIrGen`, whose straight-line code fills a response buffer.

Code that updates fields or buffers in place is modelled as classes and methods over arrays. Each
such method is proved against a function of its inputs or of the old state, and the lemmas are about
that function. Definitions that a theorem uses on both of its sides, such as the arithmetic of the two
back ends, what a placeholder is or which imports are followed, have laws of their own that do not
name them. `fuel` parameters bound how long a run is looked at; `CompilerCorrect.MoreFuel` says
that the bound does not change a finished run.

## What the proofs found

Where the code falls short of a plain statement, a lemma gives the input and another lemma the exact
condition.

* The interpreter compares integers as 64-bit floats, the emitted code does not: `CompareAgree`,
  `RoundedComparison`, `SmallIntegersExact`.
* A counted `for` stops before its bound in the interpreter and at its bound in the emitted code,
  which also ignores where a range starts: `IterationsAgree`, `CountedLoopDiffers`.
* Two declarations of one name, as in two loops over `i` one after the other, define one register
  twice in the emitted text, which LLVM refuses: `AcceptedExactly`, `SingleAssignment`; `SecondLoopRefused`
  is an input that the interpreter runs.
* A stack node that is recycled while a popper still holds it ends up on the stack although its item
  was handed out: `PopExact`, `RecycledNodeBreaksStack`. Nothing else can go wrong: `Linearizable`,
  `NoItemLost`, `DequeuesServed`.
* The route matcher never goes back, so a registered pattern that fits can be missed; the int test of
  a placeholder is that of the first registration. `AnswersExactly` says when a registration answers,
  `FirstRegistered` whose test it is; `GreedyMisses` and `FirstTestStays` are the inputs.
* A call of the WebSocket parser that reads nothing throws away the bytes it found: `DropsExactly`,
  `ByteByByte`. An empty unmasked frame at the end of the bytes waits for another byte: `ReadsFrame`.
* A window update shorter than four bytes is filled up with whatever follows it: `FrameDetermines`.
* A frame stays on the stack after a match guard that returns, and the frames that the error of a
  receiver passed stay when that error is swallowed: `GuardExact` and `ReceiverExact` say how many,
  `HeightExact` that nothing else leaves any, `GuardLeaks` and `ReceiverLeaks` are the inputs.
* A name in a `match` pattern overwrites a variable of that name outside the match, if there is one:
  `ArmOverwrites`.
* The interpreter looks for a method no further than the direct parent, the vtable goes up the whole
  chain, and a class declared before its parent inherits nothing: `LookupAgainstTable`,
  `GrandparentMissed`, `ChildFirst`. The symbol of a method can be that of another one: `SymbolShared`
  says of which methods. The cache of the interpreter takes an unused entry for an answer about empty names:
  `FindClassMethod`.
* A pattern with anything but rests behind a rest never matches: `MatchIsFit`, `Disorderly`, `RestInFront`.
  A repeated variable does not compare: `FitsExactly`, `RepeatedVariable`. Two rests at the end of a list
  leave the assignment open: `FitIsUnique`.
* A `+` nested to the right writes its left part over its right part before it copies the right one:
  the copy overlaps, or the answer repeats the left part. `RightNestedExact` gives the answer,
  `RightNestedRight` says when it is right, `RightNestedOverlaps` when it is undefined.
* An `if` between two chains runs both before it selects, so the text of the second lies over that of
  the first: `ChoiceExact`, `ChoiceRight`.

Equality is symmetric exactly on sets without duplicates (`SymmetricExactly`, `DuplicatesBreakSymmetry`),
and removing a value that is there twice leaves it there (`DuplicateStays`). That is no shortfall: no
operation of the evaluator makes a set with duplicates (`LiteralIsProper`, `OperationsKeepProper`).

## Model

| member | source | states |
|---|---|---|
| CompilerCorrect.SameOutput | src/codegen/llvm.rs:5310-5595 | for every program that reads and assigns visible names only, and every interpreter run that ends without an error and without a note: there is a compiled program that prints something if and only if no name is declared twice, and what it prints is the output of that run and nothing else |
| CompilerCorrect.AcceptedExactly | src/codegen/llvm.rs:8107-8119 | LLVM takes the text of such a program, each name defined once and before every use and each branch with its targets, if and only if no name is declared twice |
| Ast.ClosedBlockWhenVisible | src/semantic/typeck.rs:529-535 | a program that reads and assigns names of a scope only meets the condition of `SameOutput` in that scope |
| Ast.DeclaredIsVisible | src/semantic/typeck.rs:382-400 | behind a declaration its name is visible |
| CompilerCorrect.OneOutput | src/codegen/llvm.rs:5310-5595 | emitted code that returns from main has only one output |
| CompilerCorrect.MoreFuel | src/interpret/stmt.rs:18-207 | a run that finished, well or with an error, is the same under every larger bound |
| CompilerCorrect.CountedLoopDiffers | src/codegen/llvm.rs:5559-5594 | `for i in 0` prints nothing in the interpreter and 0 when compiled |
| CompilerCorrect.SecondLoopRefused | src/codegen/llvm.rs:5574-5584 | two loops over the same name, one after the other, run in the interpreter and print, and have no compiled program |
| CompilerCorrect.RoundedComparison | src/interpret/value.rs:172-183 | 2^53 < 2^53 + 1 holds for the integers and fails in the interpreter |
| CompilerCorrect.SmallIntegersExact | src/interpret/value.rs:172-183 | on integers below 2^53 in magnitude the interpreter's comparisons are exact |
| Arithmetic.DivMod | src/interpret/expr.rs:33-46 | quotient and remainder of two integers satisfy a = b * q + r with a remainder smaller than the divisor that is 0 or has the sign of the dividend, so division rounds toward zero |
| Arithmetic.DivModFails | src/interpret/expr.rs:33-46 | a zero divisor and the quotient that does not fit are errors |
| Arithmetic.ExactOrOverflow | src/interpret/expr.rs:11-46 | sum, difference and product are exact where they fit into 64 bits and errors elsewhere |
| Arithmetic.Negations | src/interpret/expr.rs:297-312 | a value and its negation add up to 0, a value and its complement to -1 |
| Arithmetic.EachBit | src/interpret/expr.rs:126-143 | each of the 64 bits of `&`, `\|` and `^` is the connective of the operands' bits |
| Arithmetic.Shifts | src/interpret/expr.rs:144-155 | a left shift multiplies modulo 2^64, a right shift rounds down, other distances than 0 to 63 are errors |
| Arithmetic.ToF64Nearest | src/interpret/value.rs:172-183 | the float that an integer is converted to is the nearest number of 53 bits, and the even one of two that are equally near |
| Arithmetic.ToF64IsDouble | src/interpret/value.rs:172-183 | it is a number of 53 bits |
| FrameFacts.NotedExactly | src/interpret/value.rs:172-183 | a comparison is noted if and only if its integers differ, round to one float and their order matters to the operator; integers below 2^53 never are |
| FrameFacts.OnlyTheseNote | src/interpret/stmt.rs:18-207 | only comparisons and `for` loops leave notes |
| FrameFacts.ForNoted | src/interpret/stmt.rs:81-112 | a `for` is noted if and only if it counts to a number that is not negative, or ranges from another start than 0 or to a negative bound |
| Int64.ToF64Mono | src/interpret/value.rs:172-183 | converting integers to floats never reverses their order, at any size |
| Int64.XorMinusOne | src/codegen/llvm.rs:5666-5669 | exclusive-or with -1, which the generator emits for `~`, is -1 - a, Rust's `!` |
| Simulation.ExprCorrect | src/codegen/llvm.rs:5611-5671 | code of an expression that the interpreter evaluates leaves the value in its result operand, prints nothing and touches only registers with fresh numbers |
| Simulation.InstrCorrect | src/codegen/llvm.rs:6525-6591 | the instruction chosen for each operator computes what `eval_binop` computes whenever that is no error |
| Simulation.InstrUndefined | src/codegen/llvm.rs:6525-6591 | that instruction is undefined in LLVM if and only if `eval_binop` is an error |
| Simulation.CondCorrect | src/codegen/llvm.rs:6600-6619 | code of a condition decides as the interpreter does when no comparison on the way is noted |
| Simulation.CompareAgree | src/interpret/value.rs:172-183 | comparing through floats agrees with comparing the integers if and only if the two do not round to the same float while the operator depends on their order |
| Simulation.IterationsAgree | src/interpret/stmt.rs:81-112 | the interpreted and the compiled `for` run over the same values if and only if the bound is a negative count or a range from 0 to a bound that is not negative |
| Simulation.BoundCorrect | src/codegen/llvm.rs:5566 | the operand kept as a loop bound holds the value of the count or of the end of the range |
| StmtSimulation.StmtCorrect | src/codegen/llvm.rs:5310-5595 | from matching states, the code of a statement leads to the state that matches the interpreter's result, with the same output, at the end of its code |
| StmtSimulation.BlockCorrect | src/codegen/llvm.rs:5097-5101 | the same for a sequence of statements |
| StmtSimulation.ScopeCorrect | src/interpret/stmt.rs:189-194 | the same for a body that runs in a frame of its own, whose variables stay in memory after the interpreter dropped them |
| StmtSimulation.IfCorrect | src/codegen/llvm.rs:5468-5491 | the code of an `if` runs the branch that the interpreter takes and meets at the merge label |
| StmtSimulation.WhileCorrect | src/codegen/llvm.rs:5492-5509 | the code of a `while` goes round as often as the interpreter does and ends at the exit label |
| StmtSimulation.ForCompiled | src/codegen/llvm.rs:5559-5594 | whatever a `for` runs over, its code does what the interpreter would do over 0 up to and including the kept bound |
| FrameFacts.ExecKeeps | src/interpret/stmt.rs:18-207 | a statement keeps the frame stack free of hidden names; only a declaration adds a name, and only to the top frame |
| FrameFacts.BlockKeeps | src/interpret/stmt.rs:189-194 | a block changes no set of names below the top frame |
| FrameFacts.GetVarFlat | src/interpret/env.rs:449-463 | lookup from the top frame down finds the binding of the innermost frame, and fails exactly on names that no frame holds |
| FrameFacts.UpdateFlat | src/interpret/env.rs:469-492 | assigning to a visible name changes what is seen under that name and nothing else |
| CodegenNames.MainTimes | src/codegen/llvm.rs:4045-4049 | every register and label of an emitted program is defined exactly as often as the program says: each counter number in the used range once, a variable's slot once a declaration, a loop's comparison once a loop |
| CodegenNames.SingleAssignment | src/codegen/llvm.rs:5310-5595 | for every program that assigns visible names only, every register and label is defined at most once if and only if no name is declared twice |
| CodegenNames.LabelsDistinct | src/codegen/llvm.rs:4045-4049 | no label is placed twice |
| CodegenPaths.EveryPathSafe | src/codegen/llvm.rs:5310-5595 | along every path through the emitted program, of any length, each operand is defined before it is used, and every target of each branch, both of a conditional one, is a label that exists |
| Emitter.LlvmCodegen.FreshLabel | src/codegen/llvm.rs:4045-4049 | hands out the counter and moves it on, so no number is handed out twice |
| Emitter.LlvmCodegen.ValueName | src/codegen/llvm.rs:4474-4478 | a value name takes its number from the same counter |
| Emitter.LlvmCodegen.CompileExpr | src/codegen/llvm.rs:5611-5671 | appends the expression's code to the output, keeps the slots and returns the operand of the specification |
| Emitter.LlvmCodegen.CompileCond | src/codegen/llvm.rs:6443-6642 | the same for a condition |
| Emitter.LlvmCodegen.CompileBound | src/codegen/llvm.rs:5566 | the same for the bound of a `for` |
| Emitter.LlvmCodegen.CompileStmt | src/codegen/llvm.rs:5310-5595 | appends exactly the code that `StmtCorrect` is about and ends with its counter and slots |
| Emitter.LlvmCodegen.CompileIf | src/codegen/llvm.rs:5468-5491 | the same for `if`, whose three labels are taken before the condition |
| Emitter.LlvmCodegen.CompileWhile | src/codegen/llvm.rs:5492-5509 | the same for `while` |
| Emitter.LlvmCodegen.CompileFor | src/codegen/llvm.rs:5559-5594 | the same for `for` over integers |
| Emitter.LlvmCodegen.CompileBlock | src/codegen/llvm.rs:5097-5101 | the same for a body, statement by statement |
| Emitter.LlvmCodegen.CompileMain | src/codegen/llvm.rs:5052-5095 | appends the whole function of `SameOutput` |
| InterpreterObject.Interpreter.PushFrame | src/interpret/env.rs:494-502 | puts one frame on top and changes no other |
| InterpreterObject.Interpreter.PopFrame | src/interpret/env.rs:504-509 | removes the top frame and changes no other |
| InterpreterObject.Interpreter.GetVar | src/interpret/env.rs:449-463 | the search from the top frame down finds what `GetVarFlat` describes |
| InterpreterObject.Interpreter.SetVar | src/interpret/env.rs:469-492 | the search for the innermost holder, with the top frame as a last resort, does what `UpdateFlat` describes |
| InterpreterObject.Interpreter.EvalExpr | src/interpret/expr.rs:225-313 | evaluates without changing the frames, right operand first, with the errors of the specification |
| InterpreterObject.Interpreter.EvalCond | src/interpret/expr.rs:95-98 | the same for conditions |
| InterpreterObject.Interpreter.EvalIter | src/interpret/expr.rs:1099-1111 | the bounds of a `for`, with the overflow of an inclusive end |
| InterpreterObject.Interpreter.ExecStmt | src/interpret/stmt.rs:18-207 | frames, constants and output end as the specification says, or its error comes back |
| InterpreterObject.Interpreter.ExecBlock | src/interpret/stmt.rs:10-16 | the loop over statements stops at the first error |
| InterpreterObject.Interpreter.ExecScope | src/interpret/stmt.rs:189-194 | a body between a push and a pop |
| InterpreterObject.Interpreter.ExecWhile | src/interpret/stmt.rs:157-171 | the `while` loop is the recursive meaning of the statement |
| InterpreterObject.Interpreter.ExecFor | src/interpret/stmt.rs:52-112 | the three integer loops of `for` are one walk over a list of values |
| InterpreterObject.Interpreter.ExecUp | src/interpret/stmt.rs:82-90 | the ascending loop runs the body on each value in turn, in a frame that binds it |
| InterpreterObject.Interpreter.ExecDown | src/interpret/stmt.rs:91-99 | the descending loop does so downwards |
| HandlerQueue.StepKeeps | src/codegen/llvm.rs:1751-1836 | every step of every thread keeps the invariant, and changes the list by one push, one pop or not at all |
| HandlerQueue.RunKeeps | src/codegen/llvm.rs:1751-1836 | so does every interleaving of any length |
| HandlerQueue.Linearizable | src/codegen/llvm.rs:1751-1836 | in every interleaving where each successful pop read a link that is still its node's, the stack is acyclic, the successful swaps replay as a sequential stack with the same contents, pushed items are popped items plus those on the stack, and every popped item goes to exactly one caller |
| HandlerQueue.WithoutReuse | src/codegen/llvm.rs:1751-1836 | that is so in every interleaving that never puts back a node which some popper watches |
| HandlerCalls.EnqueuesEnter | src/codegen/llvm.rs:1751-1768 | over every run, the items of the enqueues that a thread started are those that it put on the stack, in the order of its calls, and the one that it still holds |
| HandlerCalls.NoItemLost | src/codegen/llvm.rs:1751-1768 | over every run, the items of all enqueues that got a node are those pushed and those held by enqueues under way, each as often |
| HandlerCalls.DequeuesServed | src/codegen/llvm.rs:1771-1836 | over every run, the dequeues that a thread started are those that handed out an item, those that timed out and the one under way |
| HandlerCalls.WaitsOnEmpty | src/codegen/llvm.rs:1771-1836 | a dequeue starts to wait only on an empty stack, and times out only from waiting |
| HandlerCalls.UndisturbedEnqueue | src/codegen/llvm.rs:1751-1768 | an enqueue that nobody disturbs puts its item on top in four steps |
| HandlerCalls.UndisturbedDequeue | src/codegen/llvm.rs:1771-1782 | a dequeue that nobody disturbs hands out the top item and keeps its node |
| HandlerCalls.DequeueWaits | src/codegen/llvm.rs:1771-1836 | on an empty stack it waits |
| HandlerCalls.NoNodeLost | src/codegen/llvm.rs:1708-1836 | over every run, each node ever allocated is on the stack, held by a call or kept for later |
| HandlerQueue.ReplayConserves | src/codegen/llvm.rs:1751-1836 | a sequential stack neither loses nor makes items |
| HandlerQueue.PopExact | src/codegen/llvm.rs:1773-1781 | a successful pop leaves the rest of the list if and only if the link it read is still the node's link |
| HandlerQueue.ListUnique | src/codegen/llvm.rs:1708-1711 | memory spells out one list from a pointer |
| HandlerQueue.RecycledNodeBreaksStack | src/codegen/llvm.rs:1730-1733 | with a recycled node, a run ends with a stack that should be empty and holds an item already handed out |
| Routes.AnswerSound | src/codegen/llvm.rs:1065-1105 | whatever answers a request was registered, fits it segment by segment, is the last registration on its key and accepts the method |
| Routes.LiteralWins | src/codegen/llvm.rs:1092-1095 | the last registration on a pattern of literals answers the path it spells, whatever else is registered |
| Routes.GreedyMisses | src/codegen/llvm.rs:1065-1105 | `/a/x` and `/{p}/y` leave `/a/y` without an answer although the second fits |
| Routes.FirstTestStays | src/codegen/llvm.rs:1030-1055 | a later `{p:int}` on a placeholder keeps the absence of the test |
| Routes.AnswersExactly | src/codegen/llvm.rs:1065-1105 | the last registration on its pattern answers a request whose method it accepts if and only if the path has as many segments and at each of them its literal is the segment, or it has a placeholder, no registered pattern offers the segment as a literal there, and the placeholder's test lets it pass |
| Routes.FirstRegistered | src/codegen/llvm.rs:1014-1062 | the test of a placeholder is that of the first pattern registered with it |
| Routes.OneParam | src/codegen/llvm.rs:1030-1055 | where every registered pattern is one placeholder, a path of one segment passes if and only if the first one's test lets it |
| Routes.WalkFits | src/codegen/llvm.rs:1065-1095 | the walk ends on a key that fits the segments |
| Routes.SplitJoin | src/codegen/llvm.rs:999-1011 | a path written from segments without slashes splits back into the first 64 of them, and a slash at the end makes no segment |
| Routes.NamedKind | src/codegen/llvm.rs:981-996 | a name in braces is a placeholder, with `:int` behind it one for integers |
| Routes.KindExactly | src/codegen/llvm.rs:981-996 | a segment is a placeholder if and only if it is something in braces, and one for integers if and only if `:int` follows its first colon and ends it |
| Routes.IntLikeExactly | src/codegen/llvm.rs:1076-1087 | a segment passes the int test if and only if it is a minus sign or none and then digits |
| Routes.MethodsAccepted | src/codegen/llvm.rs:1096-1104 | a registration accepts its method cut to seven letters, any method if it is `*`, and GET if it is a web socket |
| Routes.PlaceholderAnswers | src/codegen/llvm.rs:1065-1105 | `/{name}`, registered alone, answers every path of one segment, `/{name:int}` those that are an integer |
| RouteTries.SiblingsDistinct | src/codegen/llvm.rs:1014-1062 | children of a node have different labels, and at most one is a placeholder |
| RouteTries.RouteTrie.constructor | src/codegen/llvm.rs:966-970 | an empty trie stands for the empty list of registrations |
| RouteTries.RouteTrie.SplitPath | src/codegen/llvm.rs:999-1011 | the scan splits as the specification of `SplitJoin` does |
| RouteTries.RouteTrie.AllDigits | src/codegen/llvm.rs:1078-1084 | an optional minus sign and digits |
| RouteTries.RouteTrie.FindChild | src/codegen/llvm.rs:1026-1045 | the two searches of the insertion find the one child for the segment's key, or there is none |
| RouteTries.RouteTrie.Step | src/codegen/llvm.rs:1022-1056 | one segment is entered without changing the registrations |
| RouteTries.RouteTrie.Insert | src/codegen/llvm.rs:1014-1062 | the trie then stands for the list with the new registration behind it |
| RouteTries.RouteTrie.Follow | src/codegen/llvm.rs:1070-1096 | one step of the match goes where the greedy walk over the list goes |
| RouteTries.RouteTrie.MatchNode | src/codegen/llvm.rs:1065-1105 | the node that answers a request holds what the greedy walk over the list of registrations answers, and there is none exactly when the walk has no answer |
| ModuleLoaders.LoadProgram | src/cli/mod.rs:85-102 | loading succeeds if and only if the path exists, no reachable module is faulty and none lies on a cycle; then exactly the reachable modules are loaded, numbered in order, and nothing is being visited |
| ModuleLoaders.ModuleLoader.constructor | src/module/mod.rs:27-29 | nothing is loaded and nothing is being visited |
| ModuleLoaders.ModuleLoader.Load | src/module/mod.rs:31-75 | a loaded module comes with everything it reaches and the stack is restored; an error is real: a fault of a reachable module or a walk that comes back |
| ModuleLoaders.ModuleLoader.ReadFile | src/module/mod.rs:49-74 | a new module gets the next number and is finished after its imports; an error is real: the file cannot be read or parsed, or an import fails |
| ModuleLoaders.ModuleLoader.AddSource | src/module/mod.rs:58-74 | the module takes its number and stays on the stack while its imports are loaded; with all of them it is finished, otherwise their error comes back |
| ModuleLoaders.ModuleLoader.LoadImports | src/module/mod.rs:68-71 | all imports are dealt with, or the first error comes back |
| ModuleLoaders.ModuleLoader.ResolveImport | src/module/mod.rs:77-117 | foreign, builtin, relative and unsupported imports, each with its error |
| ImportGraph.EdgeExactly | src/module/mod.rs:104-111 | a module leads to another if and only if it names it by a text that begins with a dot, and the path exists |
| ImportGraph.DottedFault | src/module/mod.rs:106-111 | such a text is at fault exactly if its path does not exist |
| ImportGraph.BuiltinsAreFree | src/module/mod.rs:99-102 | the ten builtin modules are neither loaded nor faults |
| ImportGraph.OthersUnsupported | src/module/mod.rs:113-116 | every other text is refused |
| ImportGraph.ForeignFault | src/module/mod.rs:78-97 | a foreign import is a fault exactly if it is a Rust or C++ library that does not build |
| ImportGraph.WrongExactly | src/module/mod.rs:45-58 | a file that cannot be read, or not be parsed, is wrong in that way alone, and one without imports is not wrong |
| ImportGraph.AsWrittenFirst | src/module/mod.rs:119-143 | a path as written comes first, then its stem with `.yk`, and nothing else |
| ModuleLoaders.Exact | src/module/mod.rs:31-75 | the finished order from an empty loader is exactly the set of reachable modules, with no cycle and no fault among them |
| ModuleLoaders.ErrorsAreReal | src/module/mod.rs:34-43 | every error that `Load` reports is a cycle or a fault that is reachable |
| ModuleLoaders.ClosedUnderWalks | src/module/mod.rs:68-73 | everything on a walk from a finished module is finished, and strictly earlier |
| ModuleLoaders.Lower | src/module/mod.rs:68-71 | an error found above is an error for the module below it on the stack |
| Values.Flip | src/interpret/value.rs:27-52 | comparing two values in either order asks the same questions with the sides exchanged |
| Values.Parts | src/interpret/value.rs:27-52 | two values other than sets are equal if and only if they look alike at the top and corresponding parts are equal |
| Values.FloatsEqual | src/interpret/value.rs:27-32 | two doubles are equal if and only if they are the same and no NaN, or both are zeros |
| Equality.SetEqual | src/interpret/value.rs:40 | sets are equal if and only if they are equally long and the second contains each element of the first |
| Equality.Transitive | src/interpret/value.rs:27-52 | equality is transitive on all values |
| Equality.Symmetric | src/interpret/value.rs:27-52 | equality is symmetric on values whose sets, nested ones too, have no duplicates |
| Equality.Reflexive | src/interpret/value.rs:27-52 | such a value equals itself if and only if it holds neither a function nor a NaN |
| Equality.PigeonHole | src/interpret/value.rs:40 | different numbers below a bound are no more than the bound, and if they are as many, they are all of them |
| Equality.MatchAll | src/interpret/value.rs:40 | if a list without duplicates lies in an equally long one, the second lies in the first |
| Equality.SymmetricExactly | src/interpret/value.rs:40 | a set of comparable values has no duplicates if and only if every set that it equals is equal to it |
| Equality.DuplicatesBreakSymmetry | src/interpret/value.rs:40 | for example, {x, x} equals {x, y}, which does not equal {x, x} |
| ValueSets.Extensional | src/interpret/value.rs:40 | two sets without duplicates are equal if and only if they contain the same values |
| ValueSets.MergedContains | src/interpret/expr.rs:1020-1036 | a union contains what either set contains |
| ValueSets.FilteredContains | src/interpret/expr.rs:1037-1068 | intersection and difference contain what the first set contains and the second does, or does not |
| ValueSets.FilteredDupFree | src/interpret/expr.rs:1037-1068 | filtering brings in no duplicate |
| ValueSets.WithContains | src/interpret/expr.rs:1002-1013 | adding a value adds what equals it and nothing else |
| ValueSets.WithoutContains | src/interpret/expr.rs:645-653 | removing a value from a set without duplicates removes what equals it and nothing else |
| ValueSets.DuplicateStays | src/interpret/expr.rs:645-653 | removing a value that is there twice leaves it there |
| ValueSets.OperationsKeepProper | src/interpret/expr.rs:1002-1068 | all operations keep sets free of duplicates, nested ones too |
| ValueSets.LiteralIsProper | src/interpret/expr.rs:1324-1333 | a set literal has no duplicates |
| ValueSets.Position | src/interpret/expr.rs:648 | the first element equal to a value, if there is one |
| ValueSets.SetLit | src/interpret/expr.rs:1324-1333 | the loop builds the set of `LiteralIsProper` |
| ValueSets.Union | src/interpret/expr.rs:1020-1036 | the loop builds the set of `MergedContains` |
| ValueSets.Intersection | src/interpret/expr.rs:1037-1052 | the loop builds the set of `FilteredContains` that keeps |
| ValueSets.Difference | src/interpret/expr.rs:1053-1068 | the loop builds the set of `FilteredContains` that drops |
| ValueSets.SetReceiver.Add | src/interpret/expr.rs:1002-1013 | the receiver becomes the set of `WithContains` |
| ValueSets.SetReceiver.Remove | src/interpret/expr.rs:645-653 | the receiver becomes the set of `WithoutContains` |
| WsStream.TwoParts | src/codegen/llvm.rs:3103-3214 | handing over a stream in two parts, the second behind what the first left unread, gives the frames, code, state and tail of the whole |
| WsStream.RestWaits | src/codegen/llvm.rs:3103-3214 | the bytes left unread by a call give nothing by themselves |
| WsChunks.ChunksAgree | src/codegen/llvm.rs:3103-3214 | for every split into chunks where no call drops bytes, the calls together deliver what one call on the whole stream does, up to the first close |
| WsChunks.DropsExactly | src/codegen/llvm.rs:3206-3212 | a call drops bytes if and only if it finds some but fewer than its parse state needs |
| WsChunks.ByteByByte | src/codegen/llvm.rs:3206-3212 | a stream that arrives one byte at a time delivers nothing at all |
| WsChunks.RoundTrip | src/codegen/llvm.rs:3103-3214 | the parser inverts the client encoding of any list of frames, masked or not: it delivers them, unmasked, up to the first close or oversized one, and stops with the matching code; only an empty unmasked frame at the end of the list is still awaited |
| WsChunks.ReadsFrame | src/codegen/llvm.rs:3113-3176 | one encoded frame in front of any bytes, with each of the three length forms, masked or not; an empty unmasked one with nothing behind it stays in the state before the key |
| WsChunks.FramesArrive | src/codegen/llvm.rs:3103-3214 | the frames that clients encode arrive through every split that drops nothing |
| WsChunks.UnmaskTwice | src/codegen/llvm.rs:3181-3183 | unmasking is its own inverse |
| Bytes.XorEachBit | src/codegen/llvm.rs:3181-3183 | a bit of a byte combined with its key byte is set if and only if exactly one of the two bits is |
| WsParser.WsConn.ProcessData | src/codegen/llvm.rs:3103-3214 | frames delivered, replies sent, code, parse state and buffer end as the stream function says |
| WsParser.WsConn.ReadFrames | src/codegen/llvm.rs:3112-3203 | the loop reads as many frames as the stream function does |
| WsParser.WsConn.Take | src/codegen/llvm.rs:3113-3176 | one turn of the loop is one turn of the stream function, in each of the five states |
| WsParser.WsConn.TakeHeader | src/codegen/llvm.rs:3114-3130 | the two header bytes |
| WsParser.WsConn.TakeLength64 | src/codegen/llvm.rs:3138-3146 | the eight-byte length, signed as the source has it |
| WsParser.WsConn.TakeKey | src/codegen/llvm.rs:3147-3162 | the key, the limit of 65536 and the empty payload |
| WsParser.WsConn.TakePayload | src/codegen/llvm.rs:3163-3173 | as much of the payload as is there |
| WsParser.WsConn.CopyPayload | src/codegen/llvm.rs:3163-3171 | the smaller of what is missing and what is there is appended to the payload |
| WsParser.WsConn.Complete | src/codegen/llvm.rs:3178-3203 | a complete frame is unmasked and dispatched |
| WsParser.WsConn.Dispatch | src/codegen/llvm.rs:3186-3202 | close stops, ping and text are answered, the rest is dropped, and the next header is awaited |
| WsParser.StreamAnswered | src/codegen/llvm.rs:3186-3200 | every stream of encoded frames is answered by the text frames (opcode 1) it holds and a pong (10) for each ping (9), with the same data and in order, up to a close (8) or a payload of more than 65,536 bytes |
| WsParser.FrameAnswered | src/codegen/llvm.rs:3141-3200 | one frame by itself ends the connection with -1 if it is too long and with 1 if it is a close, and is delivered and answered otherwise |
| WsStream.SignedMeans | src/codegen/llvm.rs:3129-3134 | a length from 2^63 on is read as the negative number 2^64 below it |
| WsParser.WsConn.Compact | src/codegen/llvm.rs:3206-3212 | the unread bytes move to the front, unless nothing was read |
| Bytes.MoveDown | src/codegen/llvm.rs:3207-3209 | the bytes from a position on come to stand at the front |
| WsParser.WsConn.UnmaskInPlace | src/codegen/llvm.rs:3181-3183 | each payload byte is combined with the key byte whose turn it is |
| WsParser.WsConn.ReadLength64 | src/codegen/llvm.rs:3140-3142 | shifting in eight bytes gives the big-endian number, read as signed |
| H2Stream.ReadWrite | src/codegen/llvm.rs:3518-3542 | reading a written header gives it back if and only if its length is below 2^24 and its id below 2^31 |
| H2Stream.WriteRead | src/codegen/llvm.rs:3518-3542 | writing a read header gives the nine bytes back but for the reserved bit |
| H2Stream.TwoParts | src/codegen/llvm.rs:3833-3897 | a stream can be handed over in two parts, whatever lies behind the received bytes |
| H2Stream.Independent | src/codegen/llvm.rs:3833-3897 | what lies behind the received bytes does not matter when window updates are long enough |
| H2Stream.RestWaits | src/codegen/llvm.rs:3833-3897 | the tail of a call gives nothing by itself |
| H2Stream.ChunksAgree | src/codegen/llvm.rs:3833-3897 | every split into chunks dispatches the same frames and keeps the same tail as one call, up to the first GOAWAY |
| H2Stream.FrameDetermines | src/codegen/llvm.rs:3876-3882 | the bytes of a complete frame determine its effect if and only if it is not a window update shorter than four bytes |
| H2Stream.FrameHandled | src/codegen/llvm.rs:3853-3883 | a written frame hands on what its type number says; only type 7 ends the session, only type 8 changes the window, by its low 31 bits |
| H2Stream.Int32Means | src/codegen/llvm.rs:3881 | the window is a signed 32-bit number that wraps around |
| H2Stream.FramesArrive | src/codegen/llvm.rs:3833-3897 | a written sequence of frames is dispatched one by one up to the first GOAWAY, and the rest stays in the buffer |
| H2Stream.FramesArriveInChunks | src/codegen/llvm.rs:3833-3897 | a written sequence of frames is dispatched one by one up to the first GOAWAY through every split into chunks, whatever lies behind each chunk |
| H2Parser.H2Conn.WriteFrameHeader | src/codegen/llvm.rs:3531-3542 | the nine bytes of the header and nothing behind them |
| H2Parser.H2Conn.ReadFrame | src/codegen/llvm.rs:3518-3529 | reads a header exactly when nine bytes are there, and moves past it |
| H2Parser.H2Conn.HandleFrame | src/codegen/llvm.rs:3853-3883 | a window update adds its low 31 bits to the session's window and a GOAWAY ends the session; settings on stream 0 without the ACK flag, headers, data, resets and pings are recorded with what their handlers are given; other kinds do nothing |
| H2Parser.H2Conn.OneFrame | src/codegen/llvm.rs:3842-3885 | a complete frame is handled and passed, an incomplete one is left where it is |
| H2Parser.H2Conn.ReadFrames | src/codegen/llvm.rs:3842-3885 | the loop handles all complete frames up to a GOAWAY |
| H2Parser.H2Conn.ProcessData | src/codegen/llvm.rs:3833-3897 | session, buffer and code end as the stream function says |
| Base64.RoundTrip | src/codegen/llvm.rs:768-803 | decoding the encoding of any bytes gives them back, all of them and no more |
| Base64.Shape | src/codegen/llvm.rs:3014-3026 | an encoding has digits for all bits, and padding exactly in the last group for the missing bytes |
| Base64.EncodedLength | src/codegen/llvm.rs:3015-3026 | an encoding is four characters for every three bytes or part of three |
| Base64.DigitsFromTable | src/codegen/llvm.rs:3014 | the table lists the digits of RFC 4648 in order |
| Base64.Encode | src/codegen/llvm.rs:3015-3026 | the loop writes the encoding and a terminator, and leaves what lies behind it |
| Base64.Decode | src/codegen/llvm.rs:777-803 | the loop writes what the text stands for, in a buffer of the computed length |
| Base64.EncodeThenDecode | src/codegen/llvm.rs:768-803 | one after the other on arrays gives the input back |
| Hpack.RoundTrip | src/codegen/llvm.rs:3395-3406 | for every prefix of 1 to 8 bits, flag bits and value below 2^64, the encoding in front of any bytes decodes to the value, consumes exactly its octets and shifts by less than 64 |
| Hpack.SumOfOctets | src/codegen/llvm.rs:3399-3404 | the octets of a number add up to it, and reading stops behind them |
| Hpack.OctetsBound | src/codegen/llvm.rs:3399-3404 | a number below 2^(7k) has at most k octets |
| Hpack.ReadByte | src/codegen/llvm.rs:3389-3392 | a byte, or zero without moving at the end of the buffer |
| Hpack.DecodeInt | src/codegen/llvm.rs:3395-3406 | ends on every buffer, at or before its end; with at most ten continuation octets the value is the sum modulo 2^64 |
| Hpack.DecodeRest | src/codegen/llvm.rs:3398-3405 | the loop stops behind the first octet below 128 or at the end of the buffer; with at most ten octets it has added them up |
| SlotPools.SlotPool.constructor | src/codegen/llvm.rs:190-211 | an empty pool |
| SlotPools.SlotPool.Alloc | src/codegen/llvm.rs:214-257 | fails only when nothing is free and the next pages do not fit; otherwise gives a slot inside the committed range that overlaps no outstanding one, and keeps outstanding and free slots a partition of all carved ones |
| SlotPools.SlotPool.TakeFree | src/codegen/llvm.rs:218-226 | the head of the free list |
| SlotPools.SlotPool.Carve | src/codegen/llvm.rs:228-256 | commits the next pages and hands out their first slot, apart from every slot held |
| SlotPools.SlotPool.PushExtras | src/codegen/llvm.rs:242-253 | the free list then holds exactly the other slots of the new pages, once each |
| SlotPools.SlotPool.Free | src/codegen/llvm.rs:259-268 | an outstanding slot goes to the front of the free list; a null pointer changes nothing |
| SlotPools.SlotsApart | src/codegen/llvm.rs:214-257 | two slots of a pool never overlap |
| SlotPools.SlotInside | src/codegen/llvm.rs:214-257 | every slot ends at or before the end of the committed range |
| Vtables.TableMeaning | src/codegen/llvm.rs:4628-4667 | a table has unique names, repeats the parent's names in the same slots, and each slot names the nearest definition up the chain |
| Vtables.DeclaredParent | src/codegen/llvm.rs:4637-4644 | with distinct names, a parent declared before its child is the one the child inherits from |
| Vtables.ChildFirst | src/codegen/llvm.rs:4637-4644 | a class declared before its parent has its own methods only |
| Vtables.SymbolShared | src/codegen/llvm.rs:4648-4652 | the symbol of a method is that of another class or name as well if and only if its class belongs to a unit or one of the two names has an underscore |
| Vtables.PutAllFacts | src/codegen/llvm.rs:4646-4664 | adding methods overrides in place or appends, and changes no other slot |
| Vtables.Build | src/codegen/llvm.rs:4628-4667 | the loop builds the table of every class, the last one for a name that is declared twice |
| Vtables.AddOwn | src/codegen/llvm.rs:4646-4664 | the loop over a class's methods, with the set of names seen |
| MethodCache.ClassTable.FindClassMethod | src/interpret/env.rs:360-380 | on every sequence of calls the cache answers what the uncached lookup would, except that a method without a name in a class without a name is not found as long as the cache has an unused entry; a call that finds no entry fills the one that the two lengths select |
| MethodCache.SameEntry | src/interpret/env.rs:516-519 | two lookups compete for one of the four entries if and only if the names' lengths differ by the same number modulo 4 |
| MethodCache.LookupAgainstTable | src/interpret/env.rs:370-375 | a lookup finds the vtable's nearest definition if that is in the class or its direct parent, and nothing otherwise; what it finds is what the vtable slot names |
| MethodCache.GrandparentMissed | src/interpret/env.rs:370-375 | a method of the grandparent is in the vtable and not found by the interpreter |
| Patterns.MatchIsFit | src/interpret/stmt.rs:219-292 | a pattern in which no variable stands twice matches if and only if some assignment fits the value and only rests stand behind a rest; it then binds exactly its variables so that they rebuild the value |
| Patterns.LinearExactly | src/interpret/stmt.rs:219-292 | a pattern is linear if and only if each variable stands once |
| Patterns.FitIsUnique | src/interpret/stmt.rs:219-292 | when such a pattern matches, no other assignment fits if and only if no two rests at the end of a list meet elements that could go to either |
| Patterns.FitsExactly | src/interpret/stmt.rs:219-292 | with rests only at the end of lists and any variable any number of times, some assignment fits if and only if the match succeeds and no variable is met with two different values |
| Patterns.Disorderly | src/interpret/stmt.rs:232-248 | a pattern with anything but rests behind a rest matches no value |
| Patterns.Sound | src/interpret/stmt.rs:219-292 | what a successful match binds fits the value, from any bindings |
| Patterns.Complete | src/interpret/stmt.rs:219-292 | if an assignment fits a pattern in which only rests stand behind a rest, the match succeeds, and binds what the assignment says unless elements could go to either of two rests |
| Patterns.MatchBinds | src/interpret/stmt.rs:219-292 | a match binds all variables of the pattern when it succeeds, only those in any case, and keeps the rest |
| Patterns.RepeatedVariable | src/interpret/stmt.rs:223 | for example, [x, x] matches two different values |
| Patterns.RestInFront | src/interpret/stmt.rs:235-239 | for example, [...x, y] matches no list although an assignment fits every list that is not empty |
| Patterns.MatchPattern | src/interpret/stmt.rs:219-292 | the loop with its moving index decides and binds as the specification does |
| HandlerCode.ResponseExact | src/codegen/llvm.rs:8424-8458 | a handler whose body is a left-nested `+` chain answers, for every request and buffer size, with exactly the first bytes of the concatenation that fit; a body without `+` answers with its text |
| HandlerCode.PartsAnswered | src/codegen/llvm.rs:8424-8458 | any number of parts that join nothing themselves, joined, answer with the first bytes of their texts one behind the other, as many as the buffer holds |
| HandlerCode.FieldsAnswer | src/codegen/llvm.rs:8528-8557 | a handler that returns the method, the path or the body of the request answers with it |
| HandlerCode.ChainCorrect | src/codegen/llvm.rs:8570-8598 | code of a chain leaves the cut concatenation at the front of the buffer and its length in the result |
| HandlerCode.LeafCorrect | src/codegen/llvm.rs:8504-8569 | code of a part leaves the buffer alone and points at the part's text |
| HandlerCode.RightNestedExact | src/codegen/llvm.rs:8570-8598 | a `+` whose right part is itself a chain is undefined if and only if 0 < x < y, where x bytes of the left part and y of the right fit the buffer; otherwise it answers with the left part and its first y bytes again, or with the right part if x is 0; a left part that is a chain has the right one laid over it first |
| HandlerCode.RightNestedRight | src/codegen/llvm.rs:8570-8598 | the answer is the cut concatenation if and only if x is 0 or the y bytes of the right part begin the left one, which, if it is a chain, begins with as much of the right part as it is long |
| HandlerCode.RightNestedOverlaps | src/codegen/llvm.rs:8570-8598 | the copy overlaps, and the code is undefined, if and only if 0 < x < y |
| HandlerCode.OverlapMeans | src/codegen/llvm.rs:8570-8598 | two stretches overlap if and only if they start apart and share a byte |
| HandlerCode.ChoiceExact | src/codegen/llvm.rs:8512-8527 | an `if` between two parts answers with its branch, except that between two chains the text of the first is read with the second laid over it |
| HandlerCode.ChoiceRight | src/codegen/llvm.rs:8512-8527 | so the answer is that of the branch if and only if the condition fails, or one branch is no chain, or both texts agree as far as both go |
| HandlerCode.FnIrGen.GenExpr | src/codegen/llvm.rs:8504-8634 | appends the code that `ResponseExact` is about |
| HandlerCode.FnIrGen.GenIf | src/codegen/llvm.rs:8512-8527 | both branches, then two selects |
| HandlerCode.FnIrGen.GenPlus | src/codegen/llvm.rs:8570-8598 | both operands, then the join |
| HandlerCode.FnIrGen.GenJoin | src/codegen/llvm.rs:8574-8597 | the clamped copies of left and right |
| HandlerCode.FnIrGen.GenField | src/codegen/llvm.rs:8528-8557 | pointer and length of a request field |
| HandlerCode.FnIrGen.GenStrConstant | src/codegen/llvm.rs:8460-8472 | pointer and length of a constant |
| HandlerCode.FnIrGen.GenCondition | src/codegen/llvm.rs:8482-8502 | the flag that decides between two branches |
| Control.Balanced | src/interpret/expr.rs:225-1537 | in a program without match guards whose method receivers open no frame, an evaluation that returns leaves both stacks as high as before, and no frame below the top gains or loses a name |
| Control.HeightExact | src/interpret/stmt.rs:18-217 | in any program, after every run without an error, both stacks are equally high, higher by one for each guard that returned and by the open frames that each swallowed error of a receiver had passed, and so unchanged if and only if there was neither |
| Control.GuardExact | src/interpret/expr.rs:1502-1514 | a guard leaves one frame if it returns and none if not, beside what such branches inside it leave |
| Control.ReceiverExact | src/interpret/expr.rs:314-338 | the first look at a receiver leaves the frames that its error passed, none if the receiver opens no frame, beside what such branches inside it leave |
| Control.GuardLeaks | src/interpret/expr.rs:1502-1514 | a guard that returns leaves its frame on the stack |
| Control.ReceiverLeaks | src/interpret/expr.rs:314-338 | a receiver that fails inside a block when it is first evaluated leaves a frame on the stack although the call succeeds |
| Control.Exec | src/interpret/stmt.rs:18-217 | every statement keeps the frame discipline of `Balanced`, also through early returns; an error leaves the lower frames |
| Control.ExecBody | src/interpret/stmt.rs:10-16 | the same for a body up to its first return |
| Control.Scope | src/interpret/stmt.rs:189-194 | the same for a body in a frame of its own, popped on both ways out |
| Control.ExecIf | src/interpret/stmt.rs:181-195 | the same for `if` |
| Control.ExecWhile | src/interpret/stmt.rs:157-171 | the same for `while` |
| Control.ExecLoop | src/interpret/stmt.rs:172-180 | the same for `loop` |
| Control.ExecFor | src/interpret/stmt.rs:52-156 | the same for `for` |
| Control.ExecDecl | src/interpret/stmt.rs:20-31 | a declaration that returns no value leaves its name in the top frame and adds none below |
| Control.ExecAssign | src/interpret/stmt.rs:196-207 | an assignment changes no set of names below the top frame |
| Control.ExecReturn | src/interpret/stmt.rs:38-51 | the same for `return` |
| Control.EvalExpr | src/interpret/expr.rs:225-1537 | every expression keeps the frame discipline |
| Control.EvalCall | src/interpret/expr.rs:435-446 | the same for a call, whose frame is popped after a return too |
| Control.EvalNew | src/interpret/expr.rs:447-460 | the same for an instance, through all init blocks |
| Control.RunInit | src/interpret/env.rs:382-420 | the same for the init blocks of a class and its ancestors, run in the source's order |
| Control.InitBody | src/interpret/env.rs:405-419 | the same for one init block, popped before its result is looked at |
| Control.EvalInvoke | src/interpret/expr.rs:314-343 | the same for a method call, whose receiver is evaluated once before and once after the arguments |
| Control.Peek | src/interpret/expr.rs:316-338 | the first look at the receiver never fails: it may only leave frames behind |
| Control.RunMethod | src/interpret/expr.rs:531-545 | the same for the method's body |
| Control.EvalTry | src/interpret/expr.rs:1377-1384 | the same for `?` |
| Control.EvalTryCatch | src/interpret/expr.rs:1385-1418 | the same for try and catch, with a frame for each |
| Control.EvalMatch | src/interpret/expr.rs:1497-1525 | the same for `match` without guards |
| Control.EvalArms | src/interpret/expr.rs:1499-1524 | the same for the arms in order |
| Control.Guard | src/interpret/expr.rs:1502-1512 | a guard never takes a frame away, and its early return leaves the stack higher |
| Control.ArmBody | src/interpret/expr.rs:1515-1521 | the same for an arm's body, popped also when it fails |
| ControlFragment.StmtAgrees | src/interpret/stmt.rs:18-207 | on declarations, assignments, `if`, `while` and counted `for` over integers, `+` and `<`, at any nesting, the two models of the interpreter leave the same variables in the same frames, whenever the integer one ends without an error and without a rounded comparison |
| ControlFragment.BodyAgrees | src/interpret/stmt.rs:10-16 | the same for whole programs |
| ControlLaws.AssignedVariable | src/interpret/env.rs:469-492 | after an assignment the name has the value and every other name the one it had; an unknown name goes to the top frame |
| ControlLaws.DeclaredVariable | src/interpret/env.rs:449-463 | a declaration hides an outer name until its frame goes |
| ControlLaws.MovedExactly | src/interpret/env.rs:430-446 | declaring, assigning or returning a variable's value marks the variable as moved if and only if the value is an instance, inside results or not |
| ControlLaws.CondChooses | src/interpret/value.rs:152-162 | 0, false and nothing choose the other branch of a conditional, everything else the first |
| ControlLaws.MissingElse | src/interpret/stmt.rs:181-195 | a missing `else` is an empty one |
| ControlLaws.LoopIsWhile | src/interpret/stmt.rs:172-180 | `loop` is `while true` |
| ControlLaws.ReturnEnds | src/interpret/stmt.rs:10-16 | nothing runs behind a return |
| ControlLaws.ReturnFromBranch | src/interpret/stmt.rs:181-195 | a return inside the branch that is taken ends the `if` with its value |
| ControlLaws.ReturnFromLoop | src/interpret/stmt.rs:157-180 | a return inside a loop ends it with its value |
| ControlLaws.ForReturnsFirst | src/interpret/stmt.rs:103-112 | a counted loop that returns its variable returns 0, and nothing if its bound is not positive |
| ControlLaws.CallBinds | src/interpret/expr.rs:435-446 | a function that returns a parameter returns the argument at its place, or nothing where there is none, and the caller's variables stay |
| ControlLaws.ArgumentsInOrder | src/interpret/expr.rs:339-342 | arguments are evaluated from the left |
| ControlLaws.RightOperandFirst | src/interpret/expr.rs:255-293 | of two operands the right one is evaluated first |
| ControlLaws.TryUnwraps | src/interpret/expr.rs:1377-1384 | `?` undoes a success and returns a failure from the function |
| ControlLaws.NoResult | src/interpret/expr.rs:1377-1384 | `?` on a value that is no result is an error |
| ControlLaws.HandlerSees | src/interpret/expr.rs:1385-1418 | a catch handler sees the failed result that the body returned; any other returned value is returned from the function |
| ControlLaws.BlockReturns | src/interpret/expr.rs:1077-1088 | a block has the value that its body returns |
| ControlLaws.LeastArm | src/interpret/expr.rs:1499-1524 | the arm with the least index whose pattern fits and whose guard is not false decides a `match`; without one it is an error |
| ControlLaws.GuardSees | src/interpret/expr.rs:1502-1512 | a guard sees the name that its pattern binds |
| ControlLaws.ArmBinds | src/interpret/expr.rs:1515-1521 | an arm's body sees the value under the pattern's name, and its frame goes away, also after an error |
| ControlLaws.ArmOverwrites | src/interpret/expr.rs:1516-1517 | a name in a pattern overwrites a variable of that name outside the match if and only if there is one |
| ControlLaws.NewFields | src/interpret/expr.rs:447-460 | a new instance has in each field the argument of the parameter of that name, and nothing in a field without one |
| ControlLaws.InitOrder | src/interpret/env.rs:382-420 | in a line of classes of any length the init blocks run from the root on, those of ancestors twice |
| ControlLaws.InitReturns | src/interpret/env.rs:405-419 | an init block that returns a failure replaces the instance by it; another return is an error |
| ControlLaws.MethodFound | src/interpret/env.rs:370-375 | a method is looked for in the class, then in its direct parent, and no further |
| ControlLaws.InvokeRuns | src/interpret/expr.rs:511-545 | a call on a variable runs the method found in the class of the variable's value, with the arguments in their order |
| ControlLaws.MethodReturns | src/interpret/expr.rs:531-545 | a method that returns a name returns the receiver or the argument at its place, and the caller's variables stay |
| ControlLaws.MethodWritesBack | src/interpret/expr.rs:531-545 | what a method makes of `self` is written back to the variable it was called on |
| ControlLaws.ReceiverTwice | src/interpret/expr.rs:314-343 | a receiver is evaluated twice |
| ControlLaws.WrongKind | src/interpret/expr.rs:33-90 | arithmetic on other values and loops over them are errors that pass no frame |
| ControlLaws.UnknownNames | src/interpret/env.rs:449-463 | an unknown variable, function or class is an error that passes no frame |

## Left out

Simplifications of what is modelled:

- CompilerCorrect.SameOutput: does not cover assignments to names that were not declared, which declare them, and says nothing of runs that overflow, divide by zero or do not end, which the two backends treat differently.
- The integer fragment has no strings, floats, calls, returns inside branches, globals, `==`, `&&` and multi-argument `print`. A missing `else` is an empty block, which pushes and pops one frame more.
- Overflow is an error in the interpreter, as in a build with overflow checks; an overflow in the emitted code is undefined and stops the machine.
- `Codegen` stands for emitted lines as values instead of text, so escaping and formatting are not covered; the dots that `value_name` replaces do not occur.
- HandlerQueue: the wake-up condition and its lock are one step that may happen at any time; the links inside a thread's cache of free nodes are a sequence; memory is sequentially consistent.
- HandlerQueue.Linearizable: assumes that the link which a successful pop read is still its node's, because the queue recycles nodes; `RecycledNodeBreaksStack` shows why, `WithoutReuse` when it holds.
- HandlerCalls.NoItemLost: an enqueue whose allocation fails returns without a trace in the source, so only those that got a node are counted.
- ControlFragment.StmtAgrees: covers what both models have; `print`, ranges, constants and the other operators are only in `Interp`.
- RouteTries: nodes are indices into a sequence instead of pointers, strings have no zero byte inside, allocation succeeds.
- ModuleLoaders: the file system is a finite map that does not change during a load, parsing and building foreign libraries have a fixed outcome, a path is a stem and an extension.
- ModuleLoaders.ModuleLoader.Load: after an error it promises only that the numbering is intact, because the source leaves its stack of visited modules as it is.
- Values: a double is a real, an infinity, a NaN or a signed zero's value; maps are compared by keys and values; struct fields in any order.
- ValueSets.WithoutContains: needs a set without duplicates, because the source removes the first match only; `DuplicateStays` shows why.
- WsChunks.ChunksAgree: excludes calls that drop bytes, because the parser loses them; `DropsExactly` says which calls these are.
- WsParser.WsConn.ProcessData: the connection's state after a close or an error is not described, since it is cleaned up; allocation succeeds.
- H2Parser.H2Conn.ProcessData: SETTINGS, HEADERS, DATA, PING and RST_STREAM are recorded as events with their payload; what their handlers do to streams is not modelled. The buffer has four bytes to spare behind the received ones.
- H2Stream.ChunksAgree: window updates have at least four bytes, because shorter ones are read past their end; `FrameDetermines` says so exactly.
- Hpack.DecodeInt: after ten continuation octets the shift reaches 64, which C leaves undefined, so only the position is promised then.
- Hpack.DecodeRest: promises the sum for at most ten octets, for the same reason.
- H2Parser.H2Conn.HandleFrame: records SETTINGS, HEADERS, DATA, PING and RST_STREAM as events instead of running their handlers.
- Base64.Decode: bytes that the source leaves unwritten after a bad character are arbitrary.
- Base64.Encode: `int` positions do not overflow.
- SlotPools.SlotPool.Alloc: one thread at a time, slots of at least eight bytes; zeroing a slot is not modelled.
- MethodCache.ClassTable.FindClassMethod: the class table does not change, and the lock is left out.
- Patterns.MatchPattern: bindings go in and come out as a value; `destruct_bind` is not modelled.
- HandlerCode.ResponseExact: the request's texts do not lie in the response buffer; the unused 64-bit sum does not wrap; emitted text is a list of instructions.
- Control: frames, moved names and globals are values threaded through functions instead of fields updated in place, constants, builtin functions and methods, network objects, closures, `spawn` and assignments to fields are left out, and values are few.
- Control.HeightExact: reads the branches taken from a record that the source does not keep; `GuardExact` and `ReceiverExact` are about the branches themselves, `Balanced` about programs that have neither.
- Control.RunInit: runs an ancestor's init body twice, as the source does.

Not modelled at all:

- Sockets, asynchronous I/O, DNS, clocks, processes, linking, hardware detection and the bindings to LLVM.
- Lexer, parser, type checker, borrow checker, scheduler and network library.
- Code generation for `match`, expression `if`, equality, short-circuit operators, strings, floats, complex numbers, nullables and unions.
- HPACK Huffman coding and header tables, SHA-1, the vectorised header search, and the other base64 encoder, which pads wrongly.
- Type checking in reverse load order, diagnostics, command line, JSON conversion and string helpers.
