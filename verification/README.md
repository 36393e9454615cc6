# Malang: a verified model

Malang is a small language with a compiler to byte code, a stack machine that runs it and a
mark-and-sweep collector. This project models the parts of it that are hard to get right and
proves what they are for. `dafny verify dfyconfig.toml` checks everything.

**The compiler back end and the virtual machine.** `Ast` is the checked syntax tree that reaches
the back end, with names resolved to slots, and the *coherent* fragment of it (see below).
`Evaluation` says what a tree means. `AstToIr` is the visitor that turns trees into labelled IR
with its saved and restored current labels; `Lowering` is the same translation as a function, which
the visitor is proved to compute. `Ir` lists the IR in the order of the code generator, `Machine`
runs that listing, and `SimulationSteps`, `Simulation` and `ProgramCorrect` prove that it does what
the tree means. `IrToCode`, `Codegen` and the label objects emit bytes and patch them; `ByteCode`
says what the bytes of a listing are, `VirtualMachine` runs bytes with registers and stacks updated
in place, and `ByteSimulation` proves the two machines agree. `CompilerCorrect` puts the pieces
together. `ShortCircuitHead` and `StackDiscipline` add exact conditions and what holds at every
step. `Arithmetic` says over integers and bits what the opcodes mean, apart from how `Fixnum`
computes them, and `Samples` applies the results from the syntax tree to the VM's halt.

**The collector.** `GcNode` has the nodes, their recursive marking and the list that is
swap-removed from; `Gc` the mark, the sweep, allocation and deallocation with the invariant that
all operations keep; `GcMutator` arbitrary programs over the heap, what each of their instructions
does, and when a call's uncleared locals may be scanned; `HeapGraph` reachability.

**Expressions.** `Parsing` is the precedence parser as a function on tokens and `Parser` the object
that does it; `Syntax` has the grammar as an independent definition, `ParserSoundness` and
`ParserCompleteness` relate the two, `Precedence` gives chains of operators their trees by a table of
its own, `Printer` is the pretty printer with the round trip.

**Smaller pieces.** `Scopes` numbers local slots, `AliasForest` and `AliasGraph` are type aliases
with their cycle check, `IntStrings` the library's integer and string conversions.

Where the code does not do what one would expect of it, the code is modelled as it is and the exact
condition under which it does is proved. The coherent fragment of syntax trees is bounded by such
conditions: the lowering hands the labels of an if or while head to whatever stands inside it, so
`and`/`or` outside heads must have no enclosing labels (`ShortCircuitHead.ValueUnderLabels`); an
`or` at a head must have no `and` in its left operand (`ShortCircuitHead.HeadExact`); legs of an
if/else must agree on leaving a value (`StackDiscipline.MixedLegs`); literals are not negative
(`ByteSimulation.LiteralRoundTrip`); conditional branches must go forward
(`ByteSimulation.BranchImmediate`), which the lowering is proved to keep
(`LabelDiscipline.ProgramTidy`).

32-bit arithmetic wraps around where C++ leaves signed overflow undefined; division by zero and
other traps are faults. A slot that was never stored to is absent from the model's maps, and reading
it is a fault; a local that a call has not stored to yet holds what an earlier call left in its slot,
in the evaluation as on the machine. Correctness covers evaluations that end, that fault and that
never end. The collector's assertions and panics are preconditions,
so that verification shows that no run reaches them, except running out of memory, which is a result.

## Model
| member | source | states |
|---|---|---|
| CompilerCorrect.BytesRun | src/codegen/ir_to_code.cpp:907-915 | compiler correctness: if evaluating a coherent program ends in a store, the VM runs the program's bytes from the start to the halt instruction and ends with exactly that store, an empty data stack and no frames |
| CompilerCorrect.SameBehaviour | src/vm/vm.cpp:485-506 | both directions, for every coherent program: halting with a store, getting stuck and running for ever on the VM are exactly ending in that store, faulting and not ending in the evaluation |
| CompilerCorrect.BytesMean | src/vm/vm.cpp:485-506 | where the VM stops, the evaluation ends with a known amount of fuel: at a halt with the VM's globals, otherwise in a fault, and then the VM is at an operation whose operands have no result or at a load of a slot never stored to, never at an instruction that lacks an operand |
| CompilerCorrect.Compile | src/ir/ast_to_ir.cpp:1731-1769 | the two visitors one after the other produce the byte code of the lowered program; the VM halts on it with a store exactly if the program means that store, gets stuck exactly if it faults, and runs for ever exactly if its evaluation never ends |
| CompilerCorrect.Execute | src/vm/vm.cpp:485-506 | run in the VM object, a compiled program whose evaluation ends is still running before some number of instructions and has halted with the evaluation's globals after it; whenever the object has halted or is stuck, that is what the program means |
| CompilerCorrect.OneEnd | src/vm/vm.cpp:485-506 | a run has at most one halt and is stuck nowhere before it, so the result above is the only one |
| Samples.OperationRuns | src/vm/vm.cpp:507-689 | from syntax tree to VM: the compiled `x0 := a op b`, for every operator and all literals, halts with the global holding what the opcode means for `a` and `b`, with nothing else, and is stuck exactly where the opcode means nothing |
| Samples.SampleCoherent | src/ir/ast_to_ir.cpp:1302-1383 | the coherent fragment admits a program with recursion, a loop with `and`/`or`, break and continue, and an if/else used as a value |
| ProgramCorrect.ProgramRuns | src/ir/ast_to_ir.cpp:1754-1769 | the labelled code of a whole program, functions first, runs from the initial state to the halt with the evaluation's store; to an instruction without a result if the evaluation faults; and for at least as many steps as there was fuel if that runs out |
| ProgramCorrect.SkipFns | src/ir/ast_to_ir.cpp:370-373 | free-standing code branches over every function's body without touching anything |
| ProgramCorrect.FnAt | src/ir/ast_to_ir.cpp:462-466 | each function's code lies whole in the program's code, in source order, entered at its entry label |
| Simulation.Simulate | src/ir/ast_to_ir.cpp:1302-1383 | for every coherent node in every place and every result of its evaluation: its code runs to where the outcome says, with the evaluated store, frames and lower slots untouched, and the stack as before plus the node's values; a value may instead have gone into the branch to a head's label; a fault is a state without a result, and too little fuel is a run of that length |
| Simulation.SimulateBody | src/ir/ast_to_ir.cpp:1302-1333 | the same for bodies, with every value but a collected last one discarded |
| Simulation.SimulateIf | src/ir/ast_to_ir.cpp:1583-1645 | if/else as statement or value, whatever its legs are |
| Simulation.SimulateWhile | src/ir/ast_to_ir.cpp:1335-1383 | any number of rounds, with break, continue and return out of the body |
| Simulation.SimulateOr | src/ir/ast_to_ir.cpp:521-558 | `or` as a value or under inherited labels evaluates left to right and stops at the first true operand |
| Simulation.SimulateAnd | src/ir/ast_to_ir.cpp:560-602 | `and` as a value or at a head; its own true label is reached only when its left operand is true and with nothing pushed |
| Simulation.SimulateCall | src/codegen/ir_to_code.cpp:193-278 | calls are transparent: frame stacks, the caller's base, all slots of the caller's frame and below, stored to or not, and lower data are as before, the arguments are replaced by the result; above the frame lies what the callee left |
| Simulation.SimulateFn | src/vm/vm.cpp:750-784 | one whole call from the call instruction to the one behind it, for functions with a frame and for fast returns: every slot below the caller's top of locals is as it was |
| Simulation.SimulateProlog | src/vm/vm.cpp:990-1000 | the callee starts with its arguments in its first slots, in their order, and in the others what earlier calls left there; the caller's slots are untouched |
| Evaluation.EvalShape | src/ir/ast_to_ir.cpp:1302-1333 | a coherent node that ends leaves exactly the values its type announces, and breaks, continues or returns only where that is allowed |
| Evaluation.MoreFuel | src/ir/ast_to_ir.cpp:1335-1383 | the meaning of a tree does not depend on the fuel that bounds its evaluation, once there is enough |
| Evaluation.BinaryEvaluates | src/vm/vm.cpp:507-640 | an operator in a tree has the value it means for the values of its operands, left and right, or faults if it means none |
| StackDiscipline.NodeStack | src/ir/ast_to_ir.cpp:1302-1333 | whatever a node's evaluation comes to, at no step does its code touch what lay on the stack at entry: it ends one higher if the node leaves a value, or at a head's label at the same height; a break or continue leaves the same stack, a return its values on top; a fault is reached above that height; without an end the run goes on for as many steps as there was fuel |
| StackDiscipline.BodyStack | src/ir/ast_to_ir.cpp:1302-1333 | the same for bodies, for every result |
| StackDiscipline.NeverStarved | src/vm/vm.hpp:136-150 | wherever a program's machine can go no further it is at the halt, at an operation whose two operands are there and have no result, or at a load of a slot never stored to: it is never stuck on an empty data stack |
| StackDiscipline.IfStack | src/ir/ast_to_ir.cpp:1607-1643 | the height behind an if/else statement with legs of any kind, by the leg that was taken |
| StackDiscipline.MixedLegs | src/ir/ast_to_ir.cpp:1607-1643 | run once with its condition true and once with it false, an if/else statement leaves the stack as high as it was both times exactly if, with both legs non-empty, they end in values of one type or neither ends in a value |
| Machines.RunUnder | src/vm/vm.hpp:136-150 | a run that does not get stuck does the same, step by step, on top of any data stack |
| Machines.RunKeepsTop | src/vm/vm.cpp:801-813 | over every run, the top of the globals is the greatest index stored to, or zero, and not one more |
| ShortCircuitHead.HeadRuns | src/ir/ast_to_ir.cpp:1351-1368 | the jumps of any and/or tree over variables at a head, right or wrong: which of the two labels is reached, with the stack unchanged |
| ShortCircuitHead.HeadExact | src/ir/ast_to_ir.cpp:521-602 | for trees in which no atom occurs twice: the label reached is the tree's value for all values of its atoms exactly if no `and` lies in the left operand of an `or` |
| ShortCircuitHead.WrongSomewhere | src/ir/ast_to_ir.cpp:536-556 | for any other tree in which no atom occurs twice: values of its atoms for which it leaves through the wrong label |
| ShortCircuitHead.RightAllTheSame | src/ir/ast_to_ir.cpp:536-556 | with an atom that occurs twice the jumps can be right outside that condition: in `(a and b) or a` they always are |
| ShortCircuitHead.ValueUnderLabels | src/ir/ast_to_ir.cpp:1343-1378 | with a head's labels still set, as in a body, a tree leaves its value behind for all values of its atoms only if it has no operator |
| ShortCircuitHead.HeadOkIsCoherent | src/ir/ast_to_ir.cpp:1592-1610 | the coherent fragment admits exactly the trees that meet that condition |
| AstToIr.AstToIr.Get | src/ir/ast_to_ir.cpp:1221-1300 | converting a node builds exactly the IR the lowering defines, creates its labels in that order and restores the current labels |
| AstToIr.AstToIr.VisitLogicalOr | src/ir/ast_to_ir.cpp:521-558 | with a current true label the left operand pops into it, otherwise into a label of its own |
| AstToIr.AstToIr.VisitLogicalAnd | src/ir/ast_to_ir.cpp:560-602 | the left operand gets a true label of its own, placed between the operands |
| AstToIr.AstToIr.ConvertBody | src/ir/ast_to_ir.cpp:1302-1333 | appends a body with its discards and returns a collected last value |
| AstToIr.AstToIr.VisitIfElse | src/ir/ast_to_ir.cpp:1583-1645 | both head labels stay set over the legs; the type is the legs' common one |
| AstToIr.AstToIr.VisitWhile | src/ir/ast_to_ir.cpp:1335-1383 | condition label, block, end label, with the four current labels saved and restored |
| AstToIr.AstToIr.VisitFn | src/ir/ast_to_ir.cpp:329-469 | parameters stored in reverse, a final return if missing, frame allocation in front, all behind a branch over it |
| AstToIr.AstToIr.Convert | src/ir/ast_to_ir.cpp:1754-1769 | a whole program |
| Lowering.LowerTypes | src/ir/ast_to_ir.cpp:1624-1643 | the IR of a node is a value of the type the syntax tree announces |
| Lowering.IfListing | src/ir/ast_to_ir.cpp:1596-1645 | the instruction order of if/else |
| Lowering.WhileListing | src/ir/ast_to_ir.cpp:1351-1383 | the instruction order of while |
| Lowering.FnListing | src/ir/ast_to_ir.cpp:407-466 | the instruction order of a function |
| LabelDiscipline.LowerTidy | src/ir/ast_to_ir.cpp:521-602 | every label a node creates is placed once, conditional branches go forward or to the labels it was given, nothing else is branched to |
| LabelDiscipline.ProgramTidy | src/codegen/ir_to_code.cpp:280-292 | in a whole program each created label is placed exactly once, only placed labels are targets, conditional branches only go forward |
| GoodCode.ProgramSound | src/codegen/ir_to_code.cpp:907-915 | the code of a coherent program meets everything the byte-code step needs, unless it is too long for 32-bit offsets |
| IrToCode.IrToCode.VisitLabel | src/codegen/ir_to_code.cpp:280-285 | placing a label turns the bytes of the code so far into those of the code with the label, all waiting sites patched |
| IrToCode.IrToCode.VisitBranch | src/codegen/ir_to_code.cpp:294-367 | the five branch kinds: immediate when the label is resolved, otherwise a site that waits for it |
| IrToCode.IrToCode.BackfillLabel | src/codegen/ir_to_code.cpp:115-127 | a call of a label, resolved or not |
| IrToCode.IrToCode.VisitFixnum | src/codegen/ir_to_code.cpp:34-48 | the shortest literal form |
| IrToCode.IrToCode.VisitBoolean | src/codegen/ir_to_code.cpp:29-32 | booleans are the literals one and zero |
| IrToCode.IrToCode.VisitLoad | src/codegen/ir_to_code.cpp:74-95 | loads of globals and locals |
| IrToCode.IrToCode.VisitStore | src/codegen/ir_to_code.cpp:369-392 | stores to globals and locals |
| IrToCode.IrToCode.VisitDiscard | src/codegen/ir_to_code.cpp:14-17 | a drop |
| IrToCode.IrToCode.ConvertOne | src/codegen/ir_to_code.cpp:917-920 | visiting an IR node emits exactly the bytes of its listing |
| IrToCode.IrToCode.Convert | src/codegen/ir_to_code.cpp:907-915 | the emitted bytes of a program are its byte code, no dummy left and no other byte disturbed |
| CodeGeneration.EncodesMark | src/ir/ir_label.cpp:18-34 | patching all sites of a label gives exactly the bytes of the code with the label placed |
| CodeGeneration.EncodesAppend | src/codegen/codegen.cpp:515-577 | emitting an instruction leaves the bytes of the others as they are |
| CodeGeneration.IrLabelObject.Address | src/ir/ir_label.cpp:18-34 | resolving a label patches its sites, relative or absolute as each asked for |
| CodeGeneration.Codegen.SetRaw32 | src/codegen/codegen.cpp:591-596 | four bytes replaced, the others unchanged |
| CodeGeneration.Codegen.PushBackLiteral16 | src/codegen/codegen.cpp:194-242 | a one-byte opcode for minus one to five, otherwise opcode and immediate |
| CodeGeneration.Codegen.PushBackLoadLocal | src/codegen/codegen.cpp:419-460 | one-byte forms for the first ten locals |
| CodeGeneration.Codegen.PushBackDrop | src/codegen/codegen.cpp:489-513 | one-byte forms for up to four |
| CodeGeneration.Codegen.MakeDummy32 | src/codegen/codegen.cpp:515-521 | a dummy immediate and its index |
| ByteSimulation.BytesSimulate | src/vm/vm.cpp:690-769 | whatever state the labelled code reaches, its bytes reach, with addresses for instruction indices and call frames |
| ByteSimulation.StepLocated | src/vm/vm.cpp:485-506 | one step of labelled code is one step of byte code, or none for a label |
| ByteSimulation.OperandLands | src/ir/ir_label.cpp:18-42 | in sound code every branch holds the distance to its label and every call the label's address |
| ByteSimulation.BranchImmediate | src/codegen/ir_to_code.cpp:294-367 | a branch's immediate is the distance the VM expects exactly if it is unconditional, before its label, or at address zero |
| ByteSimulation.LiteralRoundTrip | src/codegen/ir_to_code.cpp:34-48 | a literal decodes to its number exactly if it is not in -128..-1 |
| ByteSimulation.DecodeData | src/vm/vm.cpp:654-677 | every data instruction decodes to itself |
| ByteSimulation.DecodeControl | src/vm/vm.cpp:690-769 | branches, calls, returns and the halt decode to themselves with their immediates |
| Fixnums.Fetch32Raw32 | src/codegen/codegen.cpp:309-315 | a 32-bit immediate written byte by byte is fetched as the same number |
| Fixnums.Fetch16Raw16 | src/codegen/codegen.cpp:302-307 | the same for 16 bits |
| Fixnums.LittleEndian | src/codegen/codegen.cpp:302-315 | immediates are written in two's complement, the byte at each offset standing for that power of 256 |
| ByteCode.OpcodeNumbers | src/vm/instruction.def:5-110 | the opcode bytes are the positions in the instruction list |
| Arithmetic.BinaryMeans | src/vm/vm.cpp:507-640 | what every binary opcode computes, over integers: sum, difference and product modulo 2^32; a quotient toward zero and the remainder with the dividend's sign, none for a zero divisor and for -2^31 by -1; `and`, `or`, `xor` bit by bit; shifts as doubling and as halving rounded down, for counts of 0 to 31; comparisons as one and zero |
| Arithmetic.OneMeaning | src/vm/vm.cpp:507-640 | those laws determine the result, and whether there is one |
| Arithmetic.UnaryIs | src/vm/vm.cpp:641-654 | negation modulo 2^32, and inversion as the number that adds up to minus one |
| VirtualMachines.VirtualMachine.StepOnce | src/vm/vm.cpp:485-1066 | one round of the dispatch loop, in place, is one step of the machine; halting and getting stuck are told apart |
| VirtualMachines.VirtualMachine.Run | src/vm/vm.cpp:485-506 | the interpreter runs exactly the machine's steps |
| VirtualMachines.VirtualMachine.Execute | src/vm/vm.cpp:507-689 | arithmetic, literals, loads, stores, drops and frame allocation in place; an arithmetic opcode replaces the two topmost values, the lower one first, by what it means for them, or fails exactly if it means nothing |
| VirtualMachines.VirtualMachine.ExecuteBinary | src/vm/vm.cpp:507-640 | the two topmost values, the lower one as left operand, give way to the one result that the opcode means for them |
| VirtualMachines.VirtualMachine.ExecuteBranch | src/vm/vm.cpp:690-749 | the five branches |
| VirtualMachines.VirtualMachine.ExecuteReturn | src/vm/vm.cpp:750-761 | both returns |
| GcNodes.GcNode.GcMark | src/vm/runtime/object.cpp:6-79 | depth-first marking ends on any heap; what it colours ends black, is reachable from here and has no white child; nothing else changes colour |
| GcNodes.GcList.Append | src/vm/runtime/gc.cpp:447-461 | a node is listed at the end and knows list and index |
| GcNodes.GcList.Remove | src/vm/runtime/gc.cpp:463-485 | swap-removal keeps every listed node's index right and writes only the removed node's slot |
| GcNodes.GcList.Pop | src/vm/runtime/gc.cpp:487-498 | the last node, if any |
| GarbageCollector.MalangGC.Mark | src/vm/runtime/gc.cpp:134-167 | from all white, exactly the managed objects reachable from the scanned managed roots become black |
| GarbageCollector.MarkedIsReachable | src/vm/runtime/gc.cpp:134-167 | a marked set that holds the roots and has no white child outside is the set of reachable objects |
| GarbageCollector.MalangGC.Sweep | src/vm/runtime/gc.cpp:169-190 | walking to the original end of the shrinking vector frees exactly the white nodes in their old order, whitens the others, leaves their contents, and keeps both lists' indices right |
| GarbageCollector.MalangGC.SweepOne | src/vm/runtime/gc.cpp:173-185 | one round: each slot not yet visited still holds its original node, each visited node is kept or freed |
| GarbageCollector.MalangGC.MarkAndSweep | src/vm/runtime/gc.cpp:128-132 | exact collection: what stays allocated is exactly what was reachable, white and unchanged; the others move to the free list |
| GarbageCollector.MalangGC.FreeObject | src/vm/runtime/gc.cpp:367-440 | freeing a managed object moves it from one list to the other; an unmanaged one is in none |
| GarbageCollector.MalangGC.CollectIfDue | src/vm/runtime/gc.cpp:261-272 | if collection is not paused and the allocated objects number at least the next run, exactly the reachable managed objects stay and the next run is put off by the interval, up to the object limit; otherwise nothing changes |
| GarbageCollector.MalangGC.AllocIntern | src/vm/runtime/gc.cpp:261-284 | allocation fails exactly with the object limit of objects left after a due collection, all of them reachable unless collection is paused |
| GarbageCollector.MalangGC.Allocate | src/vm/runtime/gc.cpp:314-344 | the managed objects are those from before, or the reachable ones if a collection was due, and the new one, which has the asked-for kind and number of empty slots; contents are unchanged; the heap invariant holds |
| GarbageCollector.MalangGC.AllocateUnmanaged | src/vm/runtime/gc.cpp:286-313 | the same with the new object in no list |
| GarbageCollector.MalangGC.Deallocate | src/vm/runtime/gc.cpp:417-445 | freeing an object that nothing refers to removes it from the live objects and keeps the heap invariant |
| GarbageCollector.MalangGC.StoreField | src/vm/vm.cpp:823-832 | a field store keeps the heap invariant |
| GarbageCollector.MalangGC.LoneGlobalKept | src/vm/vm.cpp:801-813 | an object held only by one global survives a collection exactly if the global's index is below the highest ever stored to |
| Mutators.Mutator.Perform | src/vm/vm.cpp:792-832 | an instruction of a program over the heap (stack, globals, locals, frames, fields, allocation, deallocation, collection) is performed exactly if its operands allow it and, for an allocation, there is room; then slots, objects and contents are exactly as the instruction says; the collector's invariant is kept in any case |
| Mutators.Mutator.AllowedMeans | src/vm/vm.cpp:792-832 | which instructions are allowed, by the VM's registers and the live objects |
| Mutators.Mutator.Deallocate | src/vm/runtime/gc.cpp:417-445 | popping and freeing an object to which no scanned slot and no other object refers takes just that object from the live ones |
| Mutators.Mutator.Run | src/vm/runtime/gc.cpp:128-132 | over every run of such instructions: listed once with matching magic and index, allocated objects white, the counters add up, and everything that can be reached from the scanned slots is live and not free |
| Mutators.Mutator.NothingDangles | src/vm/runtime/gc.cpp:134-167 | what can be reached from the scanned slots is live, not free and not in the free list |
| Mutators.Mutator.FrameExact | src/vm/vm.cpp:990-1000 | entering a frame, which makes uncleared locals scanned, keeps all roots live exactly if those locals hold no freed object |
| Mutators.Mutator.StaleLocal | src/vm/vm.cpp:750-761 | a program that comes to such a local: a call leaves a new object in its local, a collection frees it, and the next call's frame would scan it |
| Mutators.Mutator.GlobalsExact | src/vm/vm.cpp:801-813 | the same condition for a store to a global above all earlier ones, which makes those in between scanned |
| HeapGraph.ClosedIsReachable | src/vm/runtime/object.cpp:22-70 | a closed set of reachable nodes with the roots is the set of reachable nodes |
| Parsers.Parser.ParseExpression | src/parser.cpp:937-962 | the parser object computes the parsing function; a tree is a sentence of the grammar made of the consumed tokens, the index advances, a failure restores it; a chain of operands and operators gets the tree that the table of precedences gives it |
| Parsers.Parser.ParseBinary | src/parser.cpp:470-731 | the loop of each binary level; which operators a level takes is `Precedence.LevelParsed` |
| Parsers.Parser.ParsePrefix | src/parser.cpp:732-777 | prefix operators, also without an operand |
| Parsers.Parser.ParsePostfix | src/parser.cpp:778-826 | calls, subscripts and members |
| Parsers.Parser.ParsePrimary | src/parser.cpp:844-906 | parentheses, literals, names |
| Parsers.Parser.ParseQualifiedName | src/parser.cpp:827-843 | names with qualifiers |
| Parsers.Parser.ParseExpressionList | src/parser.cpp:907-936 | lists with an optional trailing comma; the check for a missing comma never fires |
| ParserSoundness.SoundExpression | src/parser.cpp:937-962 | every parsed tree has a sentence of the grammar with its operators at their levels leaning left, whose tokens are exactly those consumed; without a missing operand no error was reported |
| ParserSoundness.SoundChain | src/parser.cpp:470-490 | left association within a level |
| ParserCompleteness.CompleteExpression | src/parser.cpp:470-906 | every sentence without a missing operand is parsed to its tree, without an error, up to its end, whatever follows that cannot continue it |
| ParserCompleteness.CompleteBracket | src/parser.cpp:907-936 | lists with and without trailing comma up to their bracket |
| Precedence.ChainParsed | src/parser.cpp:485-731 | precedence, by a table of ten groups apart from the parser's levels: any chain of operands and binary operators is parsed to the tree whose root is the last operator of the loosest group, and so on for both sides |
| Precedence.OneTree | src/parser.cpp:485-731 | the table gives every chain one tree |
| Precedence.TwoOperators | src/parser.cpp:665-731 | `x p y q z` is `x p (y q z)` exactly if `q` is of a later group than `p`, otherwise `(x p y) q z` |
| Precedence.LevelParsed | src/parser.cpp:485-731 | the function of each level takes exactly the operators of its group and the tighter ones |
| Precedence.WrittenParsed | src/parser.cpp:485-731 | operands written as the grammar has them, with operators between them, are parsed to the table's tree, whole and without an error |
| Precedence.PrefixOperators | src/parser.cpp:732-777 | each prefix token makes its own node and is tighter than every binary operator |
| Precedence.Atoms | src/parser.cpp:844-906 | literals and names stand for themselves |
| Printers.PrettyPrinter.ToString | src/visitors/ast_pretty_printer.cpp:8-12 | the printer's tokens, by visiting |
| Printers.PrettyPrinter.VisitList | src/visitors/ast_pretty_printer.cpp:125-136 | commas between the elements |
| Printers.RoundTrip | src/visitors/ast_pretty_printer.cpp:159-310 | a printed expression is parsed back to itself, stopping right behind it, exactly if it has no empty subscript: those are printed as the index-operator token |
| Printers.GroupedIsPrinted | src/visitors/ast_pretty_printer.cpp:159-310 | what is printed is a sentence of the grammar with every operator in parentheses |
| Printers.NoIndexGet | src/lexer.cpp:391-392 | the parser never consumes an index-operator token |
| Printers.Unambiguous | src/parser.cpp:470-906 | sentences with the same tokens have the same tree |
| Scopes.Declarer.VisitItems | src/ir/ast_to_ir.cpp:1302-1333 | over any nesting, declarations are refused exactly for a name repeated in one scope; otherwise every name of the scope is bound to the next free slot at its declaration, counting on through sibling blocks, functions leave the outer numbering alone, and at every moment the symbols of all open scopes of a frame are bound to slots of variables of their names |
| Scopes.Declarer.VisitFunction | src/ir/ast_to_ir.cpp:329-468 | a function's frame binds its parameters and the variables of its body, inner blocks included, to slots from zero on and allocates at least as many, its own plus those counted around it; the scopes around it are as before |
| Scopes.Declarer.VisitDeclaration | src/ir/ast_to_ir.cpp:274-291 | a new name is bound to the number of variables the frame had, every other symbol stays bound as it was |
| Scopes.FramesSeparate | src/ir/symbol_map.cpp:6-15 | in every frame that is recorded for a function, all variables, those of sibling blocks included, have different slots below the allocated count |
| Scopes.Declarer.OwnSlots | src/ir/symbol_map.cpp:6-15 | any two symbols of the scopes of a frame, in the same scope or nested ones, of equal or different names, are bound to different slots |
| Scopes.Declarer.SlotIsVariable | src/ir/scope_lookup.cpp:23-35 | a symbol found in the current frame is bound to the slot that the frame gave to a variable of that name |
| Scopes.ScopeLookup.Push | src/ir/scope_lookup.cpp:78-89 | a block starts at the next free slot, a function at zero |
| Scopes.ScopeLookup.Pop | src/ir/scope_lookup.cpp:91-105 | a block hands its next free slot back, a function does not |
| Scopes.ScopeLookup.FindSymbol | src/ir/scope_lookup.cpp:23-35 | the innermost visible declaration |
| AliasForest.TypeInfo.AliasedTo | src/vm/runtime/reflection.cpp:215-253 | an aliasing is refused exactly if the target is the type itself, the type is an alias already, or a cycle would close; otherwise the aliases stay a forest with no flag set |
| AliasForest.TypeInfo.IsAliasTo | src/vm/runtime/reflection.cpp:511-528 | whether the chain leads to the other type |
| AliasForest.TypeInfo.ConstAliasedToTop | src/vm/runtime/reflection.cpp:259-267 | the end of the chain |
| AliasForest.TypeInfo.FindMethod | src/vm/runtime/reflection.cpp:353-372 | a found method has the name and the parameter types; no earlier method of its type and no method of a nearer type on the chain has both; none is found exactly if no type on the chain has one |
| AliasForest.AliasAll | src/vm/runtime/reflection.cpp:215-253 | any sequence of aliasings that succeeds leaves a forest |
| AliasForest.MarkChain | src/vm/runtime/reflection.cpp:230-243 | the cycle check ends and reports a cycle exactly if the chain has no end |
| AliasGraph.LinkAcyclic | src/vm/runtime/reflection.cpp:230-243 | a new link keeps all chains finite exactly if the target's chain does not lead back |
| AliasGraph.AliasOrder | src/vm/runtime/reflection.cpp:511-528 | being an alias of is reflexive, transitive and antisymmetric |
| IntStrings.IntToS | lib/string.ma:180-199 | a minus sign if negative, then digits without a needless zero whose positional sum is the magnitude, within the buffer of 32; none for the least integer |
| IntStrings.Reverse | lib/string.ma:134-142 | the characters in opposite order |
| IntStrings.StringToI | lib/string.ma:144-164 | the signed positional sum of the digits right behind an optional sign exactly if that is at most 214748364, zero if there are none; beyond that what 32-bit arithmetic makes of ten times it |
| IntStrings.OnlyDigitsCount | lib/string.ma:155-163 | reading stops at the first character that is no digit, whatever follows |
| IntStrings.RoundTrip | lib/string.ma:144-199 | to_i undoes to_s exactly for magnitudes up to 214748364; only the least integer has no string |
| IntStrings.NoOverflow | lib/string.ma:155-162 | for such numbers no intermediate value leaves 32 bits |

## Left out
- Natives and what is compiled to calls of them: `!`, `%` as a native method, operators on anything but integers, strings, buffers, printing and files.
- Doubles, NaN-boxing and object values in the compiler's machine; the collector's model has them as references.
- Bound-function definitions used as statements: they push nothing but are followed by a drop. Function bodies and calls are modelled, functions stand at the top level.
- Programs that the visitors refuse with an error, such as a break outside a loop or a call of an unknown function: they are not coherent, and the model puts label zero where the code aborts.
- `for` loops, array literals inside functions, methods, constructors, indirect calls, several return values.
- Named blocks with the two label names in either order: labels are numbered in the order they are made.
- What a fault does: the model's machine stops where the C++ has undefined behaviour or a trap of its own.
- The fixed size of the VM's arrays: stacks grow as needed, slot indices stay below the array size.
- `uint16_t` wrap-around of the locals counter: frames stay below the array size.
- Fresh objects' slots hold plain data; the collector's C++ leaves them uninitialised.
- VirtualMachines.VirtualMachine.StepOnce: the opcodes for fields, arrays, buffers, natives, doubles and stack shuffling come out as stuck; the compiler's coherent fragment emits none of them.
- `manage` and `unmanage`, the destructor's sweep, pausing during construction, buffers' bytes, recursion depth of marking.
- Mutators.Mutator.StoreGlobal: a store that makes globals scanned which hold a freed object is not performed (`GlobalsExact`); the VM performs it.
- Mutators.Mutator.EnterFrame: a frame over locals that hold a freed object is not entered (`FrameExact`); the VM enters it, and the next collection marks the freed object.
- Mutators.Mutator.Perform: does not model the sizes of the frame stack and the data stack, nor the elements of arrays apart from fields.
- GarbageCollector.MalangGC.Allocate: one method with a tag for the three allocating functions, which differ only in what they construct; likewise for unmanaged objects.
- Parsers.Parser.ParseBinary: one method with a level for ten functions that differ only in their operators.
- Expressions that begin with `[` or `if`, function and string, character and real literals, `unalias`: the parser's outcome is then `Outside` and nothing is claimed.
- IntStrings.IntToS: for the least integer the code indexes its digits with a negative number; the model has no result there.
- Error messages, source locations and ownership of tree nodes; the count of reported errors is modelled.
- Lexing and the printer's spaces: expressions are printed as the tokens their text is read as.
- Parents of scopes by pointer: the scopes are a stack. `hide_parent` shows the parent like `show_parent`, so every scope is visible through its children.
- AliasForest.TypeInfo.FindMethod: does not model the running method index.
- Type tokens of types that were aliases before their target became one: the token is copied once.
- Modules, imports, lexer, type checking, debugger, command line.
