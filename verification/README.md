# A verified model of the SysY compiler

The repository compiles SysY, a small C-like language, to RISC-V assembly through a chain of
intermediate forms: the syntax tree, Eeyore/Pinkie (flat three-address code over named operands),
Dashie (code over machine registers with an abstract stack frame) and Glimmy (RISC-V instructions).
It also carries a persistent finger tree. This project models every stage between the checked syntax
tree and the instruction list, and the finger tree, and proves that meaning is preserved.

Each form has a small-step machine over its code, with a program counter, wrapping 32-bit words and a
trace of the calls made. A machine is running, returned, or stuck; it is stuck when it reads a word or an
operand that was never written, jumps to a missing label or leaves its code. The main results are:

* `EndToEnd.CompilerCorrect` and `EndToEnd.CompilerDiverges`: for every function of every program in
  scope, the emitted instructions run on flat memory to the value and the store that the source
  function means, back at the caller's return address with the stack pointer, the callee-saved
  registers and all other memory restored; and they run forever when the source does. The meaning is
  taken in either of two orders: the one in which the code reads its variables, for every function, and
  evaluation from left to right, for every call that meets none of the operations on which the two differ.
  `Driver.CompileSource` runs all the passes, and emits for every function exactly the code that these
  theorems are about.
* One simulation for every pass, on every run of every program: code generation
  (`GenStmtCorrect.StmtCorrect`), constant folding, dead-temporary removal, renaming and operator
  flipping, the back end, the six peephole passes, instruction selection and legalisation.
  The passes that drop instructions are proved in both directions; those that add some keep running as
  long as the original does.
* The static side: generated programs are well formed, no run of them reads a temporary before writing
  it, every assertion of the later stages is discharged, optimised programs survive the way back to
  Eeyore, every declared array has room for all its elements, frames hold all that the code in them uses,
  and every emitted instruction is encodable.
* What the passes achieve, beside being right: folding succeeds exactly when no division is undefined and
  leaves no operation on literals, removal takes out exactly the useless units, and optimised register
  code repeats no load that a register makes needless and stores no slot that is never read.
* Array layout, initialisers and constant evaluation: strides, offsets, at which element each expression
  of a nested initialiser lands, the agreement of sparse and dense initialisers, exactly which
  expressions are constant, and that their compile-time value is their run-time value.
* The finger tree: push, pop, append, split, lookup and the path-caching iterator refine a plain
  sequence of fragments and keep the tree's invariant.

Code that updates state in the repository is written as methods and classes here (`PinkieCompiler`, the
alias trackers, the passes, the array alignment, the iterator), each proved against a function that
specifies it; the theorems are about those functions.

## Preconditions

The code relies on the following, and the theorems state it:

* Array accesses stay inside their array; an access to a word that does not exist is stuck, and only runs
  of the source that have a meaning are promised a counterpart.
* Labels are unique. This is proved of generated code and kept by every pass.
* The zero register is never a destination and Dashie code never names `t0`; both are proved of
  generated code. `Exactness.ZeroLoadBreaks` shows that the slot tracker needs the first.
* Temporaries of different functions are disjoint; proved of generated code.
* No division by zero is folded. Folding is partial: it fails on the divisions that have no meaning in C++
  (a zero divisor, or the least word by -1), and on nothing else (`FoldExact.OptimizesIff`).
* A called function returns with `sp` and the callee-saved registers as they were and leaves the
  caller's scalar slots alone; what it does to shared memory and what it returns is an arbitrary
  function of the calls observed so far.
* No more than twelve arguments or parameters, and frames below 2 GiB.
* Names are in scope and used as what they are declared as; `Declared.SourceCompiles` derives what the
  theorems ask of a program from conditions on its source.

## Where the code differs from what is expected of it

* `&&` and `||` leave their last operand as it is: `2 && 3` is 3. As conditions they are right;
  `Exactness.AndValueIff` and `Exactness.OrValueIff` say exactly when their value is.
* A variable that is an operand by itself is read when the operation runs and not when it is evaluated, so
  that `g + f()` sees what `f` does to a global `g`, and `a[f()] = g` stores it; `Exactness.LateSumDiffers`
  is a program on which this shows. `ReadingOrder.OperationIff` says of every operator and all operands
  exactly when the result is nevertheless that of evaluation from left to right, and
  `ReadingOrder.ElementAssignIff` says it of assignments. What can be checked before running is
  `ReadingOrder.TameRuns`: no function that passes ever shows it.
* An initialiser with more elements than its array makes `array_align_expand` loop forever;
  `ArrayAlign.ExpandTerminatesIff` says exactly which do.
* The pass over jumps leaves a jump to the next unit where there were two of them in a row;
  `PeepholeExact.JumpLeftIff` says that it does so nowhere else.
* The iterator reports an out-of-bounds access only for the empty sequence. Behind the end of any other
  it returns the last fragment; `FingerTreeItr.StandingIffInside` says exactly when it agrees with lookup.

## Model

| member | source | states |
|---|---|---|
| EndToEnd.CompilerCorrect | main.cpp:107-129 | From every machine at the entry of a compiled function, whose registers and memory hold the source store, the emitted instructions return with the source value and the source's final store, in the code's order of reading for every function and from left to right for every harmless call; stack pointer, return address, callee-saved registers and all memory outside frame and shared data are the caller's |
| EndToEnd.CompilerDiverges | main.cpp:107-129 | If the source function uses up every amount of fuel, in either order of reading, the emitted instructions are still running after any number of steps |
| EndToEnd.BackRuns | main.cpp:122-129 | Back end, peephole and instruction selection composed: every returning Pinkie run has a register run, a shortened register run and a machine run that agree with it |
| EndToEnd.FrameApart | riscv_output.cpp:265-276 | No saved register, scalar slot or return address of the frame overlaps data that callees may see |
| Starting.EntryExists | main.cpp:107-129 | Every call of every compiled function can be started: for any addresses of the globals, any shared data outside the scalars of the frame and any store, there is a machine that meets all that CompilerCorrect asks of it; with all array words shared, its store has a word for every element of every array that the source declares |
| Starting.RoomFits | interop.cpp:112-123 | Sharing all words of all arrays is always possible: they stay clear of the frame's scalars and of the cells of globals |
| Driver.CompileSource | main.cpp:107-129 | All passes in order. There is no result exactly if some function folds an undefined division; otherwise the data section has an entry for every global, in order, with four bytes for every element, and every function has its name and exactly the machine code that CompilerCorrect is about, frame included |
| Driver.FunctionEmitted | main.cpp:122-129 | What the back end returns for a function becomes, after the peephole passes and instruction selection, its machine code |
| GenExprCorrect.ExprCorrect | gen_eeyore.cpp:89-252 | For every well-typed expression embedded anywhere in a larger program, the code reaches its end with the store that evaluating the operands from left to right leaves, variables being read by the operation that uses them; the result operand holds the value, or for conditions a word that is nonzero exactly when the condition holds; earlier temporaries are kept |
| GenExprCorrect.AndCorrect | gen_eeyore.cpp:126-143 | Short-circuit logical and: the second operand is evaluated exactly when the first is true, and the word left behind is 0 or the second operand's own, itself exact when that is a connective again |
| GenExprCorrect.OrCorrect | gen_eeyore.cpp:144-161 | Short-circuit logical or, with 1 for a true first operand and the second operand's own word otherwise, itself exact when that is a connective again |
| GenExprCorrect.OffsetCorrect | gen_eeyore.cpp:168-194 | Subscripts compute the element address by the stride of the dimension and read the element, or give the sub-array's address |
| GenExprCorrect.CallCorrect | gen_eeyore.cpp:196-246 | Arguments are evaluated from left to right, pushed in order right before the call, and the result lands in a fresh temporary |
| GenExprCorrect.ResultPlace | gen_eeyore.cpp:89-252 | A result is in a temporary of the expression's own range, or is the very variable the expression names |
| ReadingOrder.OperationIff | gen_eeyore.cpp:119-166 | For every operator but the connectives and all harmless operands, the code's value is the operation on what the left operand is found to hold after the right one; it is the value from left to right exactly if the operation gives the same for both words, for sums and differences exactly if nothing changed the operand |
| ReadingOrder.OrdersAgree | gen_eeyore.cpp:89-252 | An expression none of whose operations is harmful has one value and leaves one store in both orders of reading |
| ReadingOrder.TameHarmless | gen_eeyore.cpp:119-194 | An expression with no bare global left of a call is harmless from every store |
| GenStmtCorrect.StmtCorrect | gen_eeyore.cpp:254-421 | For every statement embedded anywhere, running its code ends where the structured semantics does: behind the fragment, at the break label, at the continue label or returned with the value, with the same store; and it runs on while the semantics has no end |
| GenStmtCorrect.IfCorrect | gen_eeyore.cpp:353-393 | Running the code of `if`, with or without `else`, takes the branch the condition selects and ends where the semantics does, with the same store |
| GenStmtCorrect.WhileCorrect | gen_eeyore.cpp:395-416 | Running the code of `while` repeats while the condition holds, obeys `break` and `continue` from any depth, ends where the semantics does, and runs on when the loop never ends |
| GenStmtCorrect.BlockCorrect | gen_eeyore.cpp:267-285 | Running the code of a block executes its items in order up to the first that leaves, with the same store and exit |
| GenStmtCorrect.InitCorrect | gen_eeyore.cpp:68-87 | Initialisers of scalars and arrays are evaluated in turn and stored at 4 times their offset |
| ReadingOrder.AssignIff | gen_eeyore.cpp:287-326 | An assignment to an element means the same in both orders exactly if the subscripts leave the variable on the right as it was |
| ReadingOrder.ElementAssignIff | gen_eeyore.cpp:287-326 | Running its code stores what the variable holds after the subscripts, with the store from left to right exactly if that is what it held before |
| ReadingOrder.RunsAgree | gen_eeyore.cpp:254-421 | A run of a statement without harmful operations is the same run in both orders |
| ReadingOrder.TameRuns | gen_eeyore.cpp:254-421 | Every run of a statement that passes a check of its text is such a run |
| GenFunctionCorrect.FunctionCorrect | gen_eeyore.cpp:481-500 | The code of a whole function returns the value and store that the function means, `main` after the initialiser and void functions with 0 |
| ReadingOrder.MeaningsAgree | gen_eeyore.cpp:481-500 | A call without harmful operations returns the same value and store in both orders |
| GenEeyore.PrettyFunction | gen_eeyore.cpp:423-462 | The loop adds to the declarations the temporaries the code assigns, in order of first assignment |
| GenEeyore.TempDecsExact | gen_eeyore.cpp:426-460 | The temporaries declared are exactly those assigned, none twice, in order of first assignment |
| GenProgram.GenerateFunction | gen_eeyore.cpp:481-500 | One function of the program, and where the shared counters for temporaries and labels stand after it; its declarations are sized by Declared.StmtDeclares |
| GenProgram.GenerateEeyore | gen_eeyore.cpp:464-505 | The loops over globals and functions build the program with the initialiser first and its label count; the globals are sized by Declared.GlobalHolds |
| GenProgram.InitializerIs | gen_eeyore.cpp:468-479 | The initialiser's code is that of a function declaring all globals, so the simulation applies to it |
| Declared.StmtDeclares | gen_eeyore.cpp:254-421 | A statement's code declares exactly the variables that the statement declares, however deep, each with four bytes for every element |
| Declared.GeneratedSignature | gen_eeyore.cpp:481-500 | Every generated function has its source's name and parameter count, and declares beside temporaries exactly the variables of its body |
| Declared.SlotHolds | gen_eeyore.cpp:52-58 | After all passes every element of every local array has its word inside the array's slot |
| Declared.GlobalHolds | gen_eeyore.cpp:464-479 | Every element of every global has its word in the data section, at the entry by which the code refers to the global |
| Declared.SourceCompiles | gen_eeyore.cpp:464-505 | A well-scoped source program meets what the theorems about the compiler ask for |
| GenStatic.ExprTidy | gen_eeyore.cpp:89-252 | The code of every expression in scope defines each of its labels once, reads no temporary it does not write, jumps only to its own labels and keeps arguments next to their call |
| GenStatic.StmtTidy | gen_eeyore.cpp:254-421 | The code of every statement in scope defines each of its labels once, reads no temporary it does not write, declares only symbols in scope, and jumps only to its own labels or those of the enclosing loop |
| GenProgram.GeneratedWellFormed | gen_eeyore.cpp:464-505 | Every function of a generated program is well formed: labels defined once, jumps inside the function, temporaries that are read written by some unit, arguments right before their call; that the write comes first on every run is Assigned.NoReadBeforeWrite |
| Assigned.NoReadBeforeWrite | gen_eeyore.cpp:464-505 | No run of a generated function from its entry, whatever its store, its calls and its jumps, reaches a unit that reads a temporary the run has not written |
| Assigned.ExprFlow | gen_eeyore.cpp:89-252 | Code of expressions has written what it reads on every path, and its result at its end |
| Assigned.StmtFlow | gen_eeyore.cpp:254-421 | Code of statements has written what it reads on every path, also behind labels that jumps reach from elsewhere |
| GenProgram.LabelsUnique | gen_eeyore.cpp:502 | A label is defined in one function only and is below the label count, so epilogue labels handed out later are fresh |
| GenProgram.TempsDisjoint | gen_eeyore.cpp:481-500 | Different functions use different temporaries |
| Primitive.ToOpAgrees | primitive.cpp:74-105 | Folding an operator computes what running it does, and is undefined exactly for a zero divisor and for the least word divided by -1 |
| Primitive.MinusIsPlusNegated | optimize_pinkie.cpp:21-25 | Subtracting any word is adding its wrapped negation, the least word included |
| ConstFold.FoldProg | optimize_pinkie.cpp:88-129 | The pass over all functions; it fails exactly when FoldExact.OptimizesIff says so |
| ConstFold.FoldCode | optimize_pinkie.cpp:90-126 | Both loops over one function, with their counts and known literals; FoldExact.FoldIs says when it fails and what becomes of each unit |
| FoldExact.FoldIs | optimize_pinkie.cpp:65-126 | Folding a function fails exactly if some unit, with the literals known before it put in, is a division of literals that C++ leaves undefined. Otherwise every unit whose operands are literals is the copy of what running it computes, every decided jump is taken or dropped, and all other units are as they were with the known literals put in |
| FoldExact.OptimizesIff | optimize_pinkie.cpp:88-129 | The optimiser has a result exactly if no function folds an undefined division, and always for programs without divisions |
| Dividing.DivisionFreeCompiles | gen_eeyore.cpp:464-505 | A source program without divisions and remainders always gets through the optimiser, whatever code generation and folding make of it |
| ConstFold.LiteralOrigin | optimize_pinkie.cpp:98-125 | Every known literal was learnt from the one unit that writes its temporary |
| ConstFoldCorrect.FoldCorrect | optimize_pinkie.cpp:88-129 | At every step of every run that does not get stuck, whatever its jumps, the folded code is in the same state, and every written temporary with a known literal holds it |
| ConstFoldCorrect.FoldKeepsLabels | optimize_pinkie.cpp:99-125 | Every label stays where it was |
| DeadTemps.UnusedTempRemove | optimize_pinkie.cpp:131-162 | The pass rewrites every function to the specified shortened code and changes nothing else |
| DeadTemps.RemoveUnusedCode | optimize_pinkie.cpp:133-159 | Both loops together keep exactly the units that are neither nops nor, calls apart, assignments to a temporary that is never read |
| OptimizeExact.RemovesExactly | optimize_pinkie.cpp:131-162 | Exactly the no-ops and the computations into a temporary that no unit reads are taken out, and the other units stay in order |
| DeadTemps.RemoveUnusedCorrect | optimize_pinkie.cpp:131-162 | Every run is followed by the shortened code: it reaches the image of the state without the dead temporaries, in no more steps |
| DeadTemps.RemoveUnusedReflects | optimize_pinkie.cpp:131-162 | Every state of the shortened code is the image of a state of the original |
| ClearTemps.ClearTemp | optimize_pinkie.cpp:34-63 | The pass renames all functions with one table and one count for the whole program |
| ClearTemps.ClearCode | optimize_pinkie.cpp:38-49 | Overwriting operands in place renames the whole function by the final table and lists the new temporaries |
| ClearTemps.ClearDecl | optimize_pinkie.cpp:50-60 | Declarations of temporaries are replaced by those of the new numbers |
| ClearTemps.MeetCodeGrows | optimize_pinkie.cpp:39-48 | The table only grows, stays one-to-one and knows every temporary of the code |
| ClearTemps.RenameCorrect | optimize_pinkie.cpp:34-63 | Every run is matched step for step by the renamed code, label for label |
| ClearTemps.DeclaredOnce | optimize_pinkie.cpp:50-60 | No temporary is declared twice |
| ClearTemps.DeclaredIffNew | optimize_pinkie.cpp:42-45 | A temporary is declared in the function exactly when no earlier function used it |
| Optimize.RenamingBijective | optimize_pinkie.cpp:34-63 | Over the whole program the renaming is a bijection from the temporaries to the numbers below the count |
| FlipBinops.FlipBinop | optimize_pinkie.cpp:10-32 | The pass over all functions puts literals second in sums and products and turns subtracted literals into added ones, and changes nothing else |
| FlipBinops.FlipExec | optimize_pinkie.cpp:12-29 | Flipping never changes what a unit does, whatever the state and the literal |
| FlipBinops.FlipCorrect | optimize_pinkie.cpp:10-32 | The flipped code runs through exactly the states of the original |
| Optimize.OptimizePinkie | optimize_pinkie.cpp:172-174 | The four passes in their order |
| Optimize.OptimizeCorrect | optimize_pinkie.cpp:172-174 | Whatever a run of the original shows, the optimised code shows in no more steps: calls, arrays, variables and result |
| Optimize.OptimizeReflects | optimize_pinkie.cpp:172-174 | Whatever the optimised code shows, the original shows |
| Optimize.OptimizedShape | optimize_pinkie.cpp:88-174 | After the optimiser no unit is a nop, no unary operator has a literal operand and every conditional jump compares a non-literal with 0 |
| OptimizeExact.OptimizedNormal | optimize_pinkie.cpp:10-174 | After the optimiser no unit computes with literals alone, no literal is on the left of a sum or product, and none is subtracted |
| Optimize.OptimizedFunc | optimize_pinkie.cpp:172-174 | Each optimised function is its original under the passes with one one-to-one renaming; name and arity stay |
| OptimizeStatic.OptimizeStatic | optimize_pinkie.cpp:172-174 | The optimiser keeps labels unique and invents none, keeps arguments next to their calls and operands in scope |
| OptimizeStatic.TempDeclared | optimize_pinkie.cpp:50-60 | Every temporary an optimised function uses is declared there, given that no earlier function used it |
| EeyoreOutput.AddressUnknown | optimize_pinkie.cpp:88-129 | Folding never learns a literal for a temporary that holds an address |
| EeyoreOutput.FunctionBased | gen_eeyore.cpp:89-421 | In the code of every well-typed function each array that is read is named, or its address is computed by some unit from such an address |
| EeyoreOutput.OptimizedBase | optimize_pinkie.cpp:172-174 | After the optimiser no array is read at a literal address |
| EeyoreOutput.OptimizedReadsBack | interop.hpp:174-303 | Every optimised program is translated back to Eeyore without meeting a literal in place of a variable, and translating the result to Pinkie gives the same program |
| Eeyore.UnitBackIff | interop.hpp:213-278 | Exactly the units without a literal in place of a variable, and whose jumps compare with zero, are translated to a statement that stands for the same unit |
| Eeyore.StatementBack | interop.hpp:33-128 | Every Eeyore statement survives the way to Pinkie and back |
| Frames.ComputeOffset | interop.cpp:112-123 | The loop hands out offsets one after the other |
| Frames.LocalsExact | interop.cpp:101-109 | Every parameter and declared symbol has exactly one slot and nothing else has |
| Frames.CalleeSavedHeuristic | interop.cpp:80-88 | The number of callee-saved registers: the most that are no more than four for every five declared symbols beyond six, but from 1 to 12 |
| Frames.SlotInFrame | interop.cpp:112-123 | Slots are word aligned, above the callee-saved area and inside the frame |
| Frames.SlotsDisjoint | interop.cpp:112-123 | Slots of different symbols do not overlap |
| Frames.SlotsPacked | interop.cpp:112-123 | Slots are packed: the first is right behind the callee-saved area, each where the one before ends, and the frame ends with the last |
| Frames.StackSizeSound | riscv_output.cpp:267 | The reserved stack is a multiple of 16 whose last word lies above all slots |
| Backend.PinkieCompiler.NextReg | interop.cpp:42-47 | The pool rotates: the next register, and the first again after the last |
| Backend.PoolRotates | interop.cpp:42-47 | After any number of requests the pool stands where going round it in order leads |
| Backend.PinkieCompiler.NewLabel | interop.cpp:125 | Hands out the count as a label and advances it |
| Backend.PinkieCompiler.ConvertGlobal | interop.cpp:59-70 | Globals are numbered in order; the first declaration of a name counts |
| Declared.GlobalsNumbered | interop.cpp:59-70 | A name is in the table exactly if it is declared, and its entry is that of its first declaration in the data section |
| Backend.PinkieCompiler.Load | interop.cpp:143-174 | Appends the one unit that loads an operand of any kind |
| Backend.PinkieCompiler.Store | interop.cpp:176-194 | Appends the units that store into a slot or, through the next scratch register, into a global |
| Backend.PinkieCompiler.GenerateUnit | interop.cpp:200-315 | Appends the code of one unit and moves the register and argument counters |
| Backend.PinkieCompiler.GenerateCode | interop.cpp:127-330 | Prologue, units in order and epilogue |
| Backend.PinkieCompiler.Compile | interop.cpp:332-358 | Every function compiled with its own fresh epilogue label; each keeps its name and arity, and every word that its code stores or loads and every array whose address it takes lies inside the frame it is given |
| BackendCorrect.LoadExec | interop.cpp:143-174 | Loading puts the operand's value into the register, whether literal, global, local or array address |
| BackendCorrect.StoreRuns | interop.cpp:176-194 | Storing updates exactly the named scalar and nothing else that the Pinkie state shows |
| BackendCorrect.CallDone | interop.cpp:293-305 | At a call the k-th argument is in the k-th argument register, both machines observe the same call, and scratch, slots and globals agree afterwards |
| BackendCorrect.LabelPlace | interop.cpp:277-292 | A label of the source stands in front of the code of its unit |
| BackendCorrect.PrologueSim | interop.cpp:128-141 | The prologue brings parameters and callee-saved registers into the frame |
| BackendCorrect.EpilogueSim | interop.cpp:316-329 | Every return goes through the epilogue, which restores the callee-saved registers |
| BackendCorrect.BackendCorrect | interop.cpp:127-330 | At every unit boundary of every run memory holds every scalar; when the function returns, the code returns the same value, calls, arrays and globals with the callee-saved registers restored; while one runs on, so does the other |
| BackendCorrect.EnvOfOk | interop.cpp:90-123 | The frame layout is what the simulation needs, for every function |
| BackendStatic.CodeFine | interop.cpp:127-330 | Generated register code never writes the zero register, never names `t0` and uses only registers that exist |
| BackendStatic.FunctionLabels | interop.cpp:127-330 | Labels stay unique with the epilogue label added |
| BackendStatic.OptimizedFine | optimize_dashie.cpp:221-229 | The peephole passes keep all registers in range, never write the zero register and never name `t0` |
| CompileStatic.CompiledOk | interop.cpp:127-330 | After optimisation every function meets all that code generation asserts of it |
| CompileStatic.CompiledReady | interop.cpp:127-330 | After optimisation every function meets what the back-end simulation assumes: distinct labels, known operands, contiguous arguments, sized slots |
| CompileStatic.ProgramCompiles | interop.cpp:346-358 | Every assertion of code generation holds for every function of every program in scope |
| Peephole.AliasTracker.Apply | optimize_dashie.cpp:69-178 | The three trackers of addresses and literals: drops a unit whose register is known to hold the value, and updates the map |
| Peephole.SlotTracker.EraseSlot | optimize_dashie.cpp:36-42 | Erases every register that holds the slot |
| Peephole.SlotTracker.Find | optimize_dashie.cpp:49-60 | The first register in map order that holds the slot |
| Peephole.SlotTracker.Apply | optimize_dashie.cpp:11-67 | Drops a load, or turns it into a copy, and updates the map |
| Peephole.UnusedStack.constructor | optimize_dashie.cpp:180-188 | Collects the slots that are loaded or have their address taken |
| Peephole.ThreadSlot | optimize_dashie.cpp:224 | Threading the slot tracker over the code is the rewriting by the map known at each unit |
| Peephole.ThreadAlias | util.hpp:19-26 | Threading a tracker over the code is the rewriting by the map known at each unit |
| Peephole.ImmediateGoto | optimize_dashie.cpp:206-219 | Drops exactly the jumps to the next unit |
| Peephole.OptimizeFunction | optimize_dashie.cpp:222-227 | The six passes in their order |
| PeepholeExact.NoRepeatedLoad | optimize_dashie.cpp:69-178 | After a pass over constants, between two equal loads of an address or literal there is a unit that may have changed the register |
| PeepholeExact.NoRepeatedSlotLoad | optimize_dashie.cpp:11-67 | After the pass over slots, between a use of a slot with a register and the next load of the slot there is a unit that may have changed register or slot |
| PeepholeExact.JumpLeftIff | optimize_dashie.cpp:206-219 | The pass over jumps leaves a jump to the next unit exactly where there were two in a row |
| PeepholeExact.OptimizedLoads | optimize_dashie.cpp:221-229 | In the final code a register that is never stored is not loaded with a constant that it holds |
| PeepholeExact.OptimizedSlotLoads | optimize_dashie.cpp:221-229 | In the final code no slot is loaded that a register holds, unless that register is stored to another slot |
| PeepholeExact.OptimizedStores | optimize_dashie.cpp:180-204 | In the final code every slot that is stored is loaded somewhere or has its address taken |
| PeepholeCorrect.InvStep | optimize_dashie.cpp:11-204 | Every alias map entry is true of the machine at every reachable point: register = slot, stack address, literal or global address |
| PeepholeCorrect.PassCorrect | optimize_dashie.cpp:11-219 | Each pass follows every run in no more steps, up to slots that are never loaded |
| PeepholeCorrect.PassReflects | optimize_dashie.cpp:11-219 | Each run of the rewritten code is a run of the code, up to slots that are never loaded |
| PeepholeCorrect.RewriteReady | optimize_dashie.cpp:11-219 | Each pass keeps labels unique and the zero register unwritten, which the next pass relies on |
| PeepholeCorrect.PeepholeCorrect | optimize_dashie.cpp:221-229 | All six: the same calls with the same arguments, the same memory, registers and status, the same contents in every slot that is ever loaded |
| PeepholeCorrect.PeepholeReflects | optimize_dashie.cpp:221-229 | Each run of the optimised code is one of the code, so it stops only where the code stops |
| RiscvOutput.BinaryCodeMeans | glimmy.cpp:119-148 | The one or two instructions of an operator compute it for all words; exactly the logical connectives have none |
| RiscvOutput.BranchCodeMeans | glimmy.cpp:150-167 | A branch is taken exactly when the comparison holds; exactly the six comparisons have one |
| RiscvOutput.UnaryCodeMeans | glimmy.cpp:106-117 | The instruction of a unary operator computes it |
| RiscvOutput.LegaliseEach | riscv_output.cpp:273-279 | The three passes threaded over the whole code do to each instruction what they do to it alone |
| RiscvOutput.LowerIs | riscv_output.cpp:29-109 | An instruction whose immediate does not fit becomes a load of `t0` and a register form; a fitting addition or comparison becomes its immediate form; any other stays |
| RiscvOutput.ConvertFuncLegal | riscv_output.cpp:265-281 | Whatever offsets and literals the code uses, every immediate of an immediate form has 12 bits and no pseudo-register is left |
| LegaliseCorrect.LowerRuns | riscv_output.cpp:29-109 | The instructions in place of one do what it does, except to `t0` |
| LegaliseCorrect.LegaliseRuns | riscv_output.cpp:273-279 | Every run is followed by the legalised code |
| ConvertCorrect.ComputeRuns | riscv_output.cpp:111-262 | Every computing unit is simulated by its instructions on registers and flat memory |
| ConvertCorrect.CallRuns | riscv_output.cpp:212-213 | Calls observe the same arguments and memory and keep the frame |
| ConvertCorrect.EnterRuns | riscv_output.cpp:273-276 | The first two instructions reserve the frame and save the return address |
| ConvertCorrect.LeaveRuns | riscv_output.cpp:214-218 | The last three instructions restore return address and stack pointer and return |
| ConvertCorrect.ConvertCorrect | riscv_output.cpp:111-281 | Every run of the register code is followed by the selected instructions |
| ConvertCorrect.RiscvCorrect | riscv_output.cpp:265-281 | Every run is followed by the legalised instructions: the same calls, every register but `t0`, memory equal frame apart, back at the caller with its stack pointer; and they run on while the register code does |
| SemanticTypes.CalculateOffsets | semantics.cpp:21-28 | The backward loop with a running product computes the strides |
| SemanticTypes.DropFirstCommutes | semantics.cpp:14-19 | Dropping a dimension commutes with computing strides |
| SemanticTypes.LengthIsProduct | semantics.hpp:26-32 | The length is the product of the dimensions |
| SemanticTypes.FlatOffsetInRange | semantics.cpp:21-28 | In-range subscripts name an element of the array |
| SemanticTypes.FlatOffsetInjective | semantics.cpp:21-28 | Different subscripts name different elements |
| SemanticTypes.FlatOffsetSurjective | semantics.cpp:21-28 | Every element has subscripts |
| ConstEval.SubscriptAddress | gen_eeyore.cpp:168-194 | Nested subscripts, up to the full list, address base + 4 times their flat offset, where a full list reads the element; and constant evaluation of the same subscripts accumulates that very offset |
| ConstEval.ConstantOffset | typec.cpp:129-137 | Constant evaluation of nested subscripts accumulates their flat offset, and looks the value up there when the list is full |
| ArrayAlign.RoundUpIsLeast | array_align.cpp:6-14 | The least multiple not below the argument |
| ArrayAlign.ShiftInPlace | array_align.cpp:25-27 | Adds the distance to every offset |
| ArrayAlign.AlignLevel | array_align.cpp:16-39 | The recursive loop over one level of braces; AlignExact.LandsExactly says where every item goes |
| ArrayAlign.AlignOrdered | array_align.cpp:16-39 | Offsets of an initialiser that fits increase strictly inside the array |
| AlignExact.LandsExactly | array_align.cpp:16-39 | The aligned list holds exactly the expressions of the initialiser, each at the sum of where the items on its path through the braces stand: an expression where the item before ended, a nested literal at the least multiple of its stride from there |
| AlignExact.NestedOccupies | array_align.cpp:22-29 | A nested literal has its sub-array for itself: all its expressions land inside one stride from where it stands, and all items after it behind |
| AlignExact.BracedElements | array_align.cpp:16-39 | A fully braced literal initialises every element with the expression that its subscripts lead to through the braces, or with zero where an item is missing |
| ArrayAlign.ArrayAlignExpand | array_align.cpp:48-68 | The expansion loop; none where it does not end |
| ArrayAlign.ExpandTerminatesIff | array_align.cpp:56-66 | Expansion ends exactly when the aligned offsets increase strictly inside the array |
| ArrayAlign.ExpandCorrect | array_align.cpp:48-68 | One entry for every element, in order, with the aligned expression or zero |
| ArrayAlign.OverflowSpins | array_align.cpp:64-66 | Two elements for an array of one make expansion spin |
| ConstEval.LowerBound | typec.cpp:77-79 | Binary search: everything before is smaller, everything from there is not |
| ConstEval.Search | typec.cpp:76-83 | Finds the value at the offset, or zero |
| ConstEval.CleanUpValue | typec.cpp:70-89 | Turns a fully subscripted constant into its value |
| ConstEval.Evaluate | typec.cpp:92-143 | Constant evaluation of every form of expression; ConstExact.ConstantIff says which have a value |
| ConstEval.Memorise | typec.cpp:231-242 | Replaces a constant's initialiser by its values, and fails exactly when it is missing or not constant, as ConstExact.MemorisesIff has it |
| ConstEval.SparseReadsDense | typec.cpp:70-89 | The sparse and the zero-filled form of an initialiser that fits read the same at every element |
| ConstEval.ConstantsAgree | typec.cpp:92-143 | A constant expression has at run time the value it was given at compile time |
| ConstExact.ConstantIff | typec.cpp:92-143 | A scalar expression gets a compile-time value exactly if its names are constants, its subscripts are full, it has no call and no undefined division, leaving aside operands that a connective does not evaluate; and then the value is that of run time |
| ConstExact.MemorisesIff | typec.cpp:231-242 | An initialiser is memorised exactly if there is one and all of it is constant in that sense, with its run-time values |
| FingerTree.NewNode2 | 3rd-party/fpp/fseq.cpp:227-233 | A node of two trees one level up over the same fragments, with its cached length |
| FingerTree.NewNode3 | 3rd-party/fpp/fseq.cpp:234-240 | A node of three trees one level up over the same fragments, with its cached length |
| FingerTree.TreeToDig | 3rd-party/fpp/fseq.cpp:244-261 | A node's children as a digit over the same fragments |
| FingerTree.DigToSeq | 3rd-party/fpp/fseq.cpp:263-294 | A digit as a sequence over the same fragments |
| FingerTree.VerifiedLevel | 3rd-party/fpp/fseq.cpp:472-500 | A tree that passes the level check stands at level zero or above, a node above zero |
| FingerTree.PushFront | 3rd-party/fpp/fseq.cpp:659-714 | The new tree's fragments come first; the invariant and all cached lengths are kept |
| FingerTree.PushBack | 3rd-party/fpp/fseq.cpp:875-930 | The new tree's fragments come last; the invariant and all cached lengths are kept |
| FingerTreeOps.PushedFragment | 3rd-party/fpp/fseq.cpp:654-658 | Pushing a fragment is cons and snoc |
| FingerTreeOps.PopFront | 3rd-party/fpp/fseq.cpp:724-772 | The first tree and the rest make up the sequence, and the rest is valid; the mutual recursion ends |
| FingerTreeOps.PopBack | 3rd-party/fpp/fseq.cpp:940-988 | The rest and the last tree make up the sequence, and the rest is valid; the mutual recursion ends |
| FingerTreeOps.DeepLeft | 3rd-party/fpp/fseq.cpp:1409-1416 | A missing left digit is borrowed from the middle, keeping the fragments in order and the invariant |
| FingerTreeOps.DeepRight | 3rd-party/fpp/fseq.cpp:1400-1407 | A missing right digit is borrowed from the middle, keeping the fragments in order and the invariant |
| FingerTreeOps.SeqPopFront | 3rd-party/fpp/fseq.cpp:716-723 | Head and tail, an error exactly on the empty sequence |
| FingerTreeOps.SeqPopBack | 3rd-party/fpp/fseq.cpp:932-939 | Last and the rest before it, an error exactly on the empty sequence |
| FingerTreeOps.Regroup12 | 3rd-party/fpp/fseq.cpp:1213-1240 | Two to twelve trees grouped by threes and twos fit the middle buffer's four places and keep their fragments in order |
| FingerTreeOps.AppendMiddle | 3rd-party/fpp/fseq.cpp:1136-1240 | Digits and buffer become at most four trees of the next level, over a gather buffer of twelve |
| FingerTreeOps.SeqAppend | 3rd-party/fpp/fseq.cpp:1093-1134 | At every depth the result is left, buffer, right in order, with the invariant kept |
| FingerTreeOps.Append | 3rd-party/fpp/fseq.cpp:1085-1091 | Appending is concatenation |
| FingerTreeOps.DigSplit | 3rd-party/fpp/fseq.cpp:1418-1531 | Splits a digit at any index inside: parts in order, and the index left over |
| FingerTreeOps.SeqSplit | 3rd-party/fpp/fseq.cpp:1284-1398 | Splits a sequence at any index inside, through every digit, level and borrowing case |
| FingerTreeOps.Split | 3rd-party/fpp/fseq.cpp:1245-1257 | Left, fragment and right make up the sequence, both sides valid, the index is the position inside the fragment; an error exactly out of bounds; fragment and position are those that looking the index up finds |
| FingerTreeOps.TreeLookup | 3rd-party/fpp/fseq.cpp:597-649 | The fragment and position that the flattened tree has at the index, or none out of range |
| FingerTreeOps.DigLookup | 3rd-party/fpp/fseq.cpp:543-595 | The fragment and position that the flattened digit has at the index, or none out of range |
| FingerTreeOps.SeqLookup | 3rd-party/fpp/fseq.cpp:505-541 | The fragment and position that the flattened sequence has at the index; an error exactly out of range |
| FingerTreeItr.SeqDepth | 3rd-party/fpp/fseq.cpp:382-404 | The loop computes the depth that sizes the iterator's stack |
| FingerTreeItr.HeightBounded | 3rd-party/fpp/fseq.cpp:382-404 | No path from the root of a valid sequence is longer than that depth |
| FingerTreeItr.PathSound | 3rd-party/fpp/fseq.cpp:2068-2242 | Every entry of the stack stands at its place, inside the range of the one before |
| FingerTreeItr.SeqItr.constructor | 3rd-party/fpp/fseq.cpp:2300-2312 | An iterator at the begin or the end, without a stack yet |
| FingerTreeItr.SeqItr.Move | 3rd-party/fpp/fseq.cpp:2012-2066 | Drops entries that do not reach the index, down to the root at most |
| FingerTreeItr.SeqItr.Get | 3rd-party/fpp/fseq.cpp:2068-2242 | What lookup finds, whatever was visited before; the stack never outgrows its allocation |
| FingerTreeItr.Visit | 3rd-party/fpp/fseq.cpp:2012-2326 | For every sequence of in-range moves, the caching iterator returns what lookup from the root returns |
| FingerTreeItr.StandingIffInside | 3rd-party/fpp/fseq.cpp:2314-2326 | Iterator and lookup agree exactly inside a non-empty sequence |
| Exactness.AndValueIff | gen_eeyore.cpp:126-143 | The code of `&&` has the language's value exactly when the first operand is 0 or the second is 0 or 1 |
| Exactness.OrValueIff | gen_eeyore.cpp:144-161 | The code of logical or has the language's value exactly when the first operand is true or the second is 0 or 1 |
| Exactness.CodeWordTruth | gen_eeyore.cpp:126-161 | The word that nested connectives leave, whatever their depth, is nonzero exactly when the condition holds |
| Exactness.TwoAndThree | gen_eeyore.cpp:126-143 | `2 && 3` is 1 in the language, and running its generated code leaves 3 |
| Exactness.LateSumDiffers | gen_eeyore.cpp:119-166 | A concrete `g + f()` that is 0 from left to right and 1 in the code |
| Exactness.ZeroLoadBreaks | optimize_dashie.cpp:45-62 | A load into the zero register would mislead the slot tracker |

## Left out

- Lexer, parser, printing of the intermediate forms, JSON, argument parsing and file output: plumbing.
- The vendored formatting and garbage collection libraries, and the list, map, set and string containers built on other trees.
- Comparing, folding, mapping and searching sequences, and peeking at and replacing their ends: structural recursions over the flattening.
- `_seq_left` and `_seq_right`: the split with one side thrown away.
- Name resolution and the levelled symbol table: symbols arrive resolved, with unique ids and their types.
- Ranges of source characters and the text of error messages: an error is a missing result.
- The union layout of units and its pointer arithmetic: units are datatypes, and operand ranges are lists.
- Debug assertions: those that matter are preconditions and are discharged, the others are left out.
- GenExprCorrect.ExprCorrect: is about the code's own order of reading variables; for evaluation from left to right add ReadingOrder.OrdersAgree, whose exact limits are ReadingOrder.OperationIff and ReadingOrder.ElementAssignIff.
- ConstFoldCorrect.FoldCorrect: says nothing of programs on which folding itself divides by zero, where the compiler has no defined behaviour.
- ArrayAlign.ArrayAlignExpand: has no result where the code loops forever.
- EndToEnd.CompilerCorrect: is about one function at a time; what callees do is an arbitrary function of the calls observed, and a program's functions are not linked with each other.
- ConvertCorrect.RiscvCorrect: memory is addressed by word, so that alignment and overlap of bytes are not modelled; nor are branch ranges, which the assembler relaxes, or the expansion of `li`, `la`, `call`.
- Frames.CalleeSavedHeuristic: computes the factor 0.8 exactly, without floating-point rounding.
- FingerTreeItr.SeqItr.Get: indexes and depths are unbounded; the error for a depth over 255 and the 56-bit index are not modelled.
- FingerTree.PushFront: lengths are unbounded, so that overflow of a cached 56-bit length is not modelled.
- ConstEval.Evaluate: offsets are unbounded.
- More than twelve arguments, where code generation gives up.
- The runtime library, including what the timing macros call.
- The data section of the output.
