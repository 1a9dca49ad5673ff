# MudOS, modelled in Dafny

MudOS is a driver for multi-user games: it compiles programs in LPC to bytecode, runs them, keeps
timers, and brings its own memory allocator, data structures and line editor. This project models
the parts of it whose correctness is hard to see from the code, in the form the C code has (loops
over buffers that are changed in place, linked structures, patched byte code), and proves what they
are for.

| files | what they model |
|---|---|
| `Bytecode`, `ParseTree` | the instructions of the machine (`src/interpret.c`) and the parse trees with their meaning |
| `Layout`, `Patching`, `Simulation`, `Correctness`, `CodeGenerator` | the code generator (`src/icode.c`): where its bytes go, what back-patching keeps, that the code does what the tree means, and the generator itself |
| `SwitchSearch`, `SwitchCompiler` | `f_switch` (`src/eoperators.c`), and the tables it searches (`src/icode.c`, `src/compiler.c`) |
| `Optimizer` | the rewriting of last reads (`src/generate.c`) |
| `AvlTree`, `AvlNodes` | the balanced trees (`src/avltree.c`), as values and as linked nodes |
| `ReplaceString` | search and replace, in place or into a new string (`src/efuns_main.c`) |
| `CallOutList`, `CallOut`, `CallOutRuns` | the timing wheel (`src/call_out.c`), its operations and the loop that drives it |
| `Allocator` | the power-of-two allocator (`src/bsdmalloc.c`) |
| `TelnetFilter`, `CommandLines`, `CommandInput` | what becomes of the bytes a user sends (`src/comm.c`) |
| `Snooping` | who watches whom (`src/comm.c`) |
| `HeartBeat`, `HeartBeatRuns` | the rounds of heart beats (`src/backend.c`), and whole runs of them |
| `ArraySets` | sorting by a heap with holes, difference and intersection of arrays (`src/array.c`) |
| `StringTable` | the string table of a program that is compiled (`src/compiler.c`) |
| `FunctionTable` | the in-place sort of a function table (`src/binaries.c`) |
| `EdBuffer` | the buffer of the line editor (`src/ed.c`) |
| `Basics` | notions that several parts share |

Two habits run through the files. Where the C code changes a structure step by step, the structure is
a class; its state as a value, a transition function for each step, and lemmas about those functions
carry the proof, and each method shows that it makes the transition. And every lemma is marked
`{:induction false}`, so every induction is written out.

## Findings

Some properties do not hold of the code as it stands. In each case the model keeps the code, and a
lemma or the contract of a method says exactly for which inputs the property holds. The optimizer is
the exception: there a condition on the program is proved to be enough, and exact conditions are
proved for two kinds of program that do not meet it.

- `i_generate_loop` looks at the number of a test without looking at the kind of the node
  (`src/icode.c:732-734`). A loop whose test is the constant 30, 32 or 33 is taken for one of the
  loop opcodes of that number, and gets no branch back: `Correctness.ConstantLoopStops`. All other
  loops of the model are compiled correctly; other kinds of node with such a number, like strings, are
  not part of it.
- A switch that has only a default searches a table of no entries, and reads an address from the
  bytes behind it (`src/eoperators.c:1012-1106`). `SwitchSearch.EmptyTakesDefault` says which bytes
  lead to the default for every key, `SwitchCompiler.DefaultAloneFails` is a compiled switch, with a
  compiled function behind it, where they do not.
- The optimizer does not see that an assignment under `&&`, `||` or `catch` may be skipped
  (`src/generate.c:116-120`, `180-182`): `Optimizer.SkippedAssignment` is a function that then returns
  the same exactly when the local is a number.
- The optimizer ignores the locals that loop opcodes look at, because a transfer "doesn't clobber
  ints" (`src/generate.c:18-19`, `97-108`); but the opcodes compare strings and reals too
  (`src/interpret.c:1648-1700`, `1886-1900`). After `write(a)` the loop `while (a < b)` finds a number
  instead of the string: `Optimizer.TransferThenCompare`, and `Optimizer.TransferThenCount` for
  `while (x--)`. If no assignment can be skipped in that way, the optimizer is right on every run
  in which the loop opcodes find only numbers in transferred locals
  (`Optimizer.OptimizerKeepsMeaning`), and on every run at all if they look at no transferred local
  (`Optimizer.OptimizerIsRight`).
- A call_out that a call registers for the slot that is being drained comes a cycle late
  (`src/call_out.c:126`, `180-181`): `CallOut.FiringTime`, and
  `CallOut.CallOuts.NewCallOut` says that this is the only case. Meanwhile `time_left` is wrong by a
  cycle for the calls of that slot, and for no others: `CallOut.TimeLeftWhileVisiting`.
- Deleting single bytes up to a negative last occurrence deletes one of them
  (`src/efuns_main.c:2520-2544`): `ReplaceString.DeletingIsRight`.
- A replacement longer than a pattern of two or more bytes is meant to be refused when the result
  would reach the limit for strings, but the bytes that the skip table passes over are copied without
  being counted, and without a look at the room left (`src/efuns_main.c:2554-2556`). So a result that is
  too long may be returned, and bytes may be written behind the new string, before a result is returned
  or refused: `ReplaceString.LimitIsKept` says when, `ReplaceString.LimitIsMissed` and
  `ReplaceString.RefusedTooLate` are one input for each.
- When realloc finds no room for the new block, the old block is already free
  (`src/bsdmalloc.c:360-364`). `Allocator.Arena.Realloc` says exactly when;
  `Allocator.ShrinkingLoses` is a heap in which shrinking a block loses it.
- Realloc of a block that was freed already does not find out its size when it is behind the fourth block
  of its list, and then copies as much as was asked for (`src/bsdmalloc.c:322-345`, `363-366`). The
  contents always arrive; `Allocator.Arena.BringBack` says exactly when bytes are read that are not the
  block's, `Allocator.FifthIsForgotten` is a heap where they are.
- The flush of a full input buffer throws away complete commands too, not only an endless line
  (`src/comm.c:1318-1331`): `CommandInput.FlushLosesCommands` says when, and
  `CommandInput.LoseCommands` is a user who loses 600. The code that truncates
  a command that fills the buffer (`src/comm.c:1566-1571`) is never reached in line mode, because
  a partial command never has more than 1791 bytes: `CommandInput.Interactive.FirstCmdInBuf`.
- The zero that ends a telnet suboption is written behind its buffer when the suboption has 100 bytes
  or more (`src/comm.h:77`, `src/comm.c:640-653`), and only then:
  `TelnetFilter.SuboptionArrives`.
- A byte 73 in the size of a window is taken for 0, because that is how 0 is stored
  (`src/comm.c:665`, `773-776`): `TelnetFilter.WindowSizeArrives`.
- The byte behind IAC BREAK, IP, AYT or AO is lost, because these leave the state as it is
  (`src/comm.c:704-723`): `TelnetFilter.AnswersSwallowNext`.
- The hash of the string table is meant to combine all bytes of an address, but its first half is stored in
  an unsigned char, so two bytes are lost (`src/compiler.c:1054-1056`, `1062`):
  `StringTable.BytesAreLost` says when the result is the one intended. Addresses that differ in their
  second byte alone always collide, `StringTable.SecondByteIsLost`.
- The loop that rearranges `type_start` (`src/binaries.c:344-347`) reads cells it has overwritten:
  `FunctionTable.CopyIsRight` says for which arrays and permutations the result is right. Two cells that
  change places lose one value, `FunctionTable.ExchangeLosesCell`.

## Model

| member | source | states |
|---|---|---|
| Bytecode.ShortBytes | src/icode.c:68-79 | a short is stored so that reading it back gives it again |
| Bytecode.IntBytes | src/icode.c:93-105 | a 32-bit number is stored so that reading it back gives it again, negative numbers too |
| Bytecode.FusionIsInvisible | src/interpret.c:2052-2079 | running a loop increment and the loop condition behind it as one dispatch does what the plain steps do: n dispatches are some n to 2n steps |
| Simulation.PushRuns | src/icode.c:157-194 | a push, merged with the pushes before it or not, puts its value on the stack |
| Simulation.NumberRuns | src/icode.c:201-221 | every 32-bit constant, in each of its six encodings, is pushed as itself |
| Simulation.FusedBranchRuns | src/icode.c:756-796 | a comparison folded into a branch, negated or not, goes where the comparison and a plain branch would |
| Simulation.ChainRuns | src/icode.c:406-422 | a chain of && or or either arrives behind its operands with the value so far or has jumped to the end with the deciding value |
| Simulation.LandLorRuns | src/icode.c:406-422 | && and or leave the value the tree means, with the side effects of the operands that are evaluated and no others |
| Simulation.CondBranchRuns | src/icode.c:744-799 | the condition of an if, under any nesting of negations, falls through or jumps as its truth value says, and leaves the stack as it was |
| Simulation.ExprRuns | src/icode.c:321-447 | the code of an expression leaves exactly its value on top of the stack, and the locals as the expression leaves them |
| Correctness.StrippedMeansTheSame | src/generate.c:522-534 | dropping `!= 0` from a loop test changes neither its truth nor its effects |
| Correctness.TestRuns | src/icode.c:732-737 | a loop test goes back to the block exactly when it holds, in each of its five forms, except for the mistaken constants |
| Correctness.LoopRuns | src/icode.c:715-742 | a loop, tested first or last, with break and continue inside, runs as often as it means, for every number of rounds |
| ParseTree.IncrementFinishes | src/trees.c:228-345 | the third part of a `for`, which may be a comma or ?: expression, never leaves the loop |
| Correctness.StmtRuns | src/icode.c:444-483 | every statement leaves at its end, or through the break or continue it executes, with the right locals; a step count that grows with the rounds shows that the machine goes on when the program does |
| Correctness.CodeIsFaithful | src/icode.c:321-483 | for every program without a mistaken test and all locals, the machine stops if and only if the program ends, and then at the end of the code with an empty stack and the locals of the program |
| Correctness.ConstantLoopStops | src/icode.c:719-737 | the code of an endless loop over a constant stops exactly when the constant is 30, 32 or 33 |
| Correctness.MistakenLoopStops | src/icode.c:732-736 | what the code of such a loop is, and where it stops |
| CodeGenerator.Generator.EndPushes | src/icode.c:157-163 | closes the pending pushes: the bytes are final and everything before them is as it was |
| CodeGenerator.Generator.InitializePush | src/icode.c:165-199 | rewinds the output over the single pending push and writes it again as the first one of an F_PUSH |
| CodeGenerator.Generator.TryToPush | src/icode.c:286-319 | merges a small push with the ones before it, at most 255 of them, and refuses a large one |
| CodeGenerator.Generator.WriteNumber | src/icode.c:201-221 | writes the encoding of a constant, merged where it can be |
| CodeGenerator.Generator.GenerateForwardBranch | src/icode.c:817-823 | a new open branch: its two offset bytes hold the address of the one that was open before |
| CodeGenerator.Generator.UpdateForwardBranch | src/icode.c:825-831 | the innermost open branch leads here, the next one is the innermost now, and no other byte has changed |
| CodeGenerator.Generator.UpdateForwardBranchLinks | src/icode.c:833-846 | the same, together with the branches of the inner operators of a chain |
| CodeGenerator.Generator.BranchBackwards | src/icode.c:849-857 | a branch back leads to the address given |
| CodeGenerator.Generator.UpdateBranchList | src/icode.c:859-869 | every break or continue of a list leads here |
| CodeGenerator.Generator.GenerateElse | src/icode.c:872-882 | the branch of the if leads behind a new open branch |
| CodeGenerator.Generator.GenerateExpr | src/icode.c:328-443 | emits a translation of the expression behind what is there, which it keeps |
| CodeGenerator.Generator.GenerateChain | src/icode.c:406-422 | emits the operands of a chain and returns its open branches |
| CodeGenerator.Generator.GenerateIfBranch | src/icode.c:744-799 | emits a condition, its comparison folded into an open branch under negation |
| CodeGenerator.Generator.GenerateConditionalBranch | src/generate.c:522-560 | chooses the branch of a loop test and emits its operands |
| CodeGenerator.Generator.GenerateTest | src/icode.c:728-742 | emits a loop test and its way back |
| CodeGenerator.Generator.GenerateLoop | src/icode.c:715-742 | emits a loop; its breaks and continues are patched, those of the loops around it are left alone |
| CodeGenerator.Generator.GenerateStmt | src/icode.c:444-483 | emits a translation of the statement; its open breaks and continues are on the lists |
| CodeGenerator.GenerateFunction | src/icode.c:321-483 | the generated code is a translation, and so the machine running it stops exactly when the program ends and with what it means |
| SwitchCompiler.PrepareCases | src/compiler.c:2187-2281 | reports an overlap if and only if two labels of a switch with ranges overlap, and picks the direct format if and only if the keys are consecutive |
| SwitchCompiler.NextOverlap | src/compiler.c:2222-2275 | comparing each label with the one before it finds an overlap of any two |
| SwitchCompiler.SizeNibble | src/icode.c:567-592 | the power of two that is stored with a table: the largest that is not above its size |
| SwitchCompiler.InsertEntries | src/icode.c:570-584 | the entries of a searched table as they are read back |
| SwitchCompiler.InsertAddresses | src/icode.c:558-565 | the addresses of a direct table and its least key as they are read back |
| SwitchCompiler.GenerateBody | src/icode.c:502-518 | the addresses of the labels and the open breaks of a switch body |
| SwitchCompiler.GenerateSwitch | src/icode.c:519-599 | header, body, closing branch, table and patches of a switch, together |
| SwitchCompiler.SortingIsInvisible | src/compiler.c:2207-2220 | a table built from sorted labels leads where a scan of the labels in source order leads |
| SwitchCompiler.CompileSwitch | src/compiler.c:2187-2281 | refuses a switch exactly when ranges overlap, and otherwise emits the table for its labels in the format prepare_cases picks |
| SwitchCompiler.RunSwitch | src/eoperators.c:928-1107 | running the emitted switch, whatever code is behind it, takes the first label, in source order, that covers the key, or the default; with no label but the default, the code behind it decides |
| SwitchCompiler.DefaultAloneFails | src/icode.c:519-599 | a compiled switch with only a default, and a compiled function behind it: for one key it jumps elsewhere |
| SwitchSearch.KeysAscend | src/icode.c:502-514 | the table of sorted cases, with two entries for a range, has ascending keys |
| SwitchSearch.GoLeft | src/eoperators.c:1040-1044 | a step down keeps the key in the part of the virtual perfect tree below the probe |
| SwitchSearch.GoRight | src/eoperators.c:1066-1083 | so does a step up, which may leave the table |
| SwitchSearch.OverrunIsEnd | src/eoperators.c:1068-1081 | a probe that left the table and has no step left stands exactly at its end |
| SwitchSearch.FindEntry | src/eoperators.c:1012-1106 | the probes in halving steps over a table of any length, with ranges, end, and land on the case that covers the key or on the default |
| SwitchSearch.FindDirect | src/eoperators.c:986-1002 | the lookup by the distance from the least key does the same |
| SwitchSearch.LandsIsScan | src/eoperators.c:928-1107 | without a repeated key that is what comparing the cases one after the other does |
| SwitchSearch.FSwitch | src/eoperators.c:928-1107 | for both formats and every size f_switch jumps where a linear scan would; for an empty table, where the bytes behind it say, through the branch for nested tables of addresses too |
| SwitchSearch.EmptyTakesDefault | src/eoperators.c:1012-1106 | an empty switch takes its default for every key if and only if the bytes behind it spell that address, and no key leads in front of the program |
| Optimizer.TransfersAreInvisible | src/interpret.c:2080-2112 | reads that are dead afterwards on every path may destroy their local: no value that is read later and no way out changes, if loop opcodes find only numbers in such locals |
| Optimizer.Unmoved | src/interpret.c:2080-2112 | outside of the transferred reads, equal locals give equal runs |
| Optimizer.OptimizedFollows | src/generate.c:47-212 | which reads the optimizer has recorded and rewritten after a tree |
| Optimizer.OptimizedIsSafe | src/generate.c:47-212 | what it rewrites is dead afterwards, through branches, loops and early exits |
| Optimizer.OptimizerKeepsMeaning | src/generate.c:47-212 | the optimized function returns the same value, leaves by the same error and does the same outside, on every run in which loop opcodes find only numbers in transferred locals, if no assignment stands under &&, or or catch |
| Optimizer.OptimizerIsRight | src/generate.c:47-212 | the same on every run, strings and reals included, if no loop opcode looks at a transferred local |
| Optimizer.TransferThenCompare | src/interpret.c:1648-1700 | if a transferred local is compared by a loop opcode, the meaning is kept if and only if the comparison gives the same value or error message with the number that is left in its place; with two strings it never does |
| Optimizer.TransferThenCount | src/interpret.c:1886-1906 | if it is counted down: if and only if it is a number, or a real that is cut to 0 exactly when the number in its place is 0 |
| Optimizer.SkippedAssignment | src/generate.c:116-120 | with such an assignment: a function whose optimized form returns the same if and only if the local is a number |
| Optimizer.Pass.Optimize | src/generate.c:47-212 | the pass that changes its tables in place computes what the lemmas are about |
| Optimizer.Pass.End | src/generate.c:470-480 | what the end of the function still rewrites |
| Optimizer.OptimizeFunction | src/generate.c:460-480 | the result of a whole pass keeps the meaning of the function, on the same runs |
| AvlTree.Insert | src/avltree.c:101-232 | the tree stays balanced, its balances stay right, and the flag tells exactly whether it has grown, and then the root leans or is new |
| AvlTree.InsertUpdates | src/avltree.c:101-232 | keys stay ordered, and the contents are the old ones with the datum in place of the one with its key |
| AvlTree.Remove | src/avltree.c:249-296 | balance stays right and the flag tells exactly whether the tree has shrunk |
| AvlTree.RemoveRemoves | src/avltree.c:249-296 | keys stay ordered, exactly the datum with the key goes, and it is the one that is handed over |
| AvlTree.TakeLast | src/avltree.c:299-325 | the same for taking out the greatest datum |
| AvlTree.TakeLastRemoves | src/avltree.c:299-325 | the datum taken out is the greatest |
| AvlTree.GrownLeftIsBalanced | src/avltree.c:135-174 | each case after growth on the left restores the balance and the height it claims |
| AvlTree.GrownRightIsBalanced | src/avltree.c:183-224 | each case after growth on the right |
| AvlTree.ShrunkLeftIsBalanced | src/avltree.c:328-376 | balanceL restores the balance and the height it claims |
| AvlTree.ShrunkRightIsBalanced | src/avltree.c:379-423 | balanceR restores the balance and the height it claims |
| AvlTree.Rotation | src/avltree.c:147-151 | a rotation keeps contents and order |
| AvlTree.DoubleRotation | src/avltree.c:152-169 | a double rotation keeps contents and order |
| AvlTree.BalancedTreesAreLow | src/avltree.c:58-85 | a balanced tree of height h has at least Fib(h + 2) - 1 nodes |
| AvlTree.SearchIsFast | src/avltree.c:58-85 | a search among n data makes at most h comparisons where Fib(h + 2) <= n + 1 |
| AvlNodes.FindNode | src/avltree.c:58-85 | the loop over nodes finds what the tree holds, in so many comparisons |
| AvlNodes.GrowLeft | src/avltree.c:135-174 | the pointer changes after growth on the left are the rotation of the values; no node is lost or shared |
| AvlNodes.GrowRight | src/avltree.c:183-224 | the same on the right |
| AvlNodes.ShrinkLeft | src/avltree.c:328-376 | the same for balanceL |
| AvlNodes.ShrinkRight | src/avltree.c:379-423 | the same for balanceR |
| AvlNodes.Sprout | src/avltree.c:101-232 | insertion into linked nodes is insertion into the tree they stand for; only one node is new |
| AvlNodes.Del | src/avltree.c:299-325 | taking out the greatest node leaves a tree of the other nodes |
| AvlNodes.Delete | src/avltree.c:249-296 | deletion from linked nodes is removal from the tree; exactly one node is freed, if any |
| AvlNodes.Avl.Add | src/avltree.c:88-98 | the tree as a map: one entry is set, and the datum that was replaced is handed over |
| AvlNodes.Avl.Discard | src/avltree.c:235-246 | the tree as a map: one entry is removed, and its datum is handed over |
| AvlNodes.Avl.Find | src/avltree.c:58-85 | the tree as a map: finds the entry in logarithmically many comparisons |
| ReplaceString.BuildSkipTable | src/efuns_main.c:2461-2468 | the table tells for each byte how far the pattern may be moved |
| ReplaceString.SkippingIsSafe | src/efuns_main.c:2480-2483 | no occurrence begins where the table skips |
| ReplaceString.ReplaceInPlace | src/efuns_main.c:2461-2505 | searching from the right in a buffer that is overwritten from the left replaces exactly the first-th to last-th of the leftmost occurrences that do not overlap |
| ReplaceString.ReplaceBytes | src/efuns_main.c:2509-2519 | the branch for one byte against one byte does the same |
| ReplaceString.DeleteBytes | src/efuns_main.c:2520-2544 | the branch that deletes single bytes, as it is |
| ReplaceString.DeletingIsRight | src/efuns_main.c:2520-2544 | it is right if and only if last is positive or the byte does not occur |
| ReplaceString.ReplaceString | src/efuns_main.c:2396-2634 | the whole function, in place or into a new string: what is returned, exactly when it is refused, and exactly when bytes are written behind the new string |
| ReplaceString.ReplaceLonger | src/efuns_main.c:2549-2604 | the branch for a longer replacement, into a string of the limit and one byte: the right string if nothing was written behind that; refused if and only if its length without the skipped bytes reaches the limit |
| ReplaceString.ReplaceByteLonger | src/efuns_main.c:2605-2634 | the same for a pattern of one byte, where every byte is counted and lies in the new string |
| ReplaceString.LimitIsKept | src/efuns_main.c:2554-2601 | the answer is right if and only if the length of the result is not between the limit and the limit plus the bytes skipped; something is written behind the new string, with a result if and only if that is longer than the limit, with a refusal if and only if the steps taken before it wrote more than fits |
| ReplaceString.LimitIsMissed | src/efuns_main.c:2554-2601 | an input whose result is longer than the limit and is returned, its last zero behind the new string |
| ReplaceString.RefusedTooLate | src/efuns_main.c:2554-2601 | an input that is refused after ten bytes were written to a string of nine |
| ReplaceString.PiecesAreReplaced | src/efuns_main.c:2553-2601 | what the steps of the search write, one after the other, is the text with the occurrences replaced |
| CallOutList.InsertedTotals | src/call_out.c:128-146 | inserting into a delta list changes no other call's time and puts the new one before those of the same time |
| CallOutList.UnlinkedTotals | src/call_out.c:277-283 | removing from a delta list changes no other call's time |
| CallOut.DelayIsRight | src/call_out.c:124-126 | slot and number of visits stand for the time that is meant, for every cycle size |
| CallOut.HandleTellsSlot | src/call_out.c:134-137 | the handle alone tells the slot |
| CallOut.TimeLeftIsRight | src/call_out.c:252-259 | time_left is the time up to the call while the wheel stands still |
| CallOut.TimeLeftWhileVisiting | src/call_out.c:252-259 | and off by a cycle for the slot that is being drained |
| CallOut.RegisteredIsOk | src/call_out.c:79-152 | registering keeps what is known about every other call |
| CallOut.CancelledIsOk | src/call_out.c:266-321 | removing keeps the time of every other call |
| CallOut.TickedIsOk | src/call_out.c:177-181 | counting a slot down keeps all times |
| CallOut.PoppedIsOk | src/call_out.c:182-190 | the call that is taken out is due now |
| CallOut.StoppedIsOk | src/call_out.c:245-247 | a visit that ends has left nothing behind that was due |
| CallOut.PendingIsLater | src/call_out.c:159-250 | over all runs, nothing that is pending is late |
| CallOut.EverythingDueHasRun | src/call_out.c:159-250 | over all runs, every call that was due and not removed has been made, once, at its time |
| CallOut.RunsAreInOrder | src/call_out.c:128-146 | over all runs, calls are made in the order of their times, those of one time last registered first, none twice |
| CallOut.ReportIsRight | src/call_out.c:252-259 | what the remove and find functions report about a pending call |
| CallOut.CallOuts.NewCallOut | src/call_out.c:79-152 | the call fires at current time plus max(delay, 1), except for the slot that is being drained, where it fires a cycle later |
| CallOut.CallOuts.FindByHandle | src/call_out.c:310-321 | looking through the slot of the handle finds the call if it is pending |
| CallOut.CallOuts.RemoveByHandle | src/call_out.c:291-308 | removes exactly that call |
| CallOut.CallOuts.RemoveByName | src/call_out.c:266-288 | removes a pending call of the function, or there is none in any slot |
| CallOut.CallOuts.RemoveAll | src/call_out.c:449-473 | removes exactly the calls of the object and of destructed ones |
| CallOut.CallOuts.Tick | src/call_out.c:177-181 | one step of the wheel |
| CallOut.CallOuts.TakeFirst | src/call_out.c:182-244 | takes out the call that is made now, or drops it when its object is gone |
| CallOut.CallOuts.More | src/call_out.c:245-246 | whether the visit goes on |
| CallOut.LeavesRegistered | src/call_out.c:126-146 | a call registered during a visit is not due in that visit |
| CallOut.FrontIsBelow | src/call_out.c:182-246 | each call of a visit was registered before the one that was made last |
| CallOutRuns.OneTick | src/call_out.c:177-248 | a visit ends whatever the calls register and remove, and the wheel moves on by one |
| CallOutRuns.CatchUp | src/call_out.c:159-250 | call_out ends with the wheel at the current time; everything that was due and not removed has been made |
| Allocator.ChooseBucket | src/bsdmalloc.c:179-197 | the loop with an unsigned size finds the least bucket whose blocks hold the request, below NBUCKETS, or gives up only when none does |
| Allocator.FitsOnce | src/bsdmalloc.c:179-197 | there is one such bucket |
| Allocator.HeapIsSafe | src/bsdmalloc.c:142-294 | over all runs: no two blocks overlap; a block is live or on the free list of its bucket, once, and on no other |
| Allocator.PoppedIsOk | src/bsdmalloc.c:207-210 | taking a block off its list makes exactly it live |
| Allocator.ReleasedIsOk | src/bsdmalloc.c:269-294 | freeing makes exactly that block free |
| Allocator.CarvedIsOk | src/bsdmalloc.c:254-265 | new blocks lie side by side, above all others, on a list that ends |
| Allocator.PiecesFit | src/bsdmalloc.c:240-254 | the memory asked for is what the blocks take, to the byte |
| Allocator.ReallocLimits | src/bsdmalloc.c:340-359 | the limits realloc compares with are those of the block's bucket in malloc |
| Allocator.LinkBlocks | src/bsdmalloc.c:261-265 | the loop that links the new blocks |
| Allocator.Arena.Morecore | src/bsdmalloc.c:229-266 | a piece of memory becomes the free list of a bucket |
| Allocator.Arena.Malloc | src/bsdmalloc.c:142-223 | the block was not live before, fits the request, and everything else is as it was; null if and only if no bucket is large enough or the list of the one that fits is empty and cannot be filled |
| Allocator.Arena.Release | src/bsdmalloc.c:269-294 | frees a live block; a free one or a null pointer changes nothing |
| Allocator.Arena.Realloc | src/bsdmalloc.c:309-368 | keeps a live block exactly when the new size belongs into its bucket, and otherwise moves the first min(old capacity, new size) bytes and frees it; brings back a block that was freed, with its contents; no byte elsewhere changes; null if and only if malloc refuses, which for a live block means that the new size belongs into another bucket that is empty and cannot be filled, or into none |
| Allocator.Arena.BringBack | src/bsdmalloc.c:322-366 | realloc of a block that was freed: its contents arrive, and bytes that are not its own are read if and only if it is behind the fourth block of its list and less than the new size |
| Allocator.Arena.FindBucket | src/bsdmalloc.c:370-390 | finds the bucket of a free block if and only if it is among the first blocks of its list |
| Allocator.FifthIsForgotten | src/bsdmalloc.c:333-337 | a heap in which a byte is read that does not belong to the block |
| Allocator.RefusedAfterRelease | src/bsdmalloc.c:360-364 | the request is refused after the release if and only if it was to come from another list that is empty |
| Allocator.ShrinkingLoses | src/bsdmalloc.c:360-364 | a heap in which shrinking a block to one byte loses it |
| TelnetFilter.OnByte | src/comm.c:608-781 | one byte gives at most one byte of data; the suboption buffer is left, by its final zero, if and only if the end of a suboption comes when it is full |
| TelnetFilter.ReadsDoNotMatter | src/comm.c:608-781 | the filter gives the same data and answers however its input is cut into reads, even inside of a telnet command |
| TelnetFilter.PlainBytes | src/comm.c:619-642 | input without the byte 255 passes unchanged |
| TelnetFilter.SuboptionArrives | src/comm.c:638-680 | a suboption arrives whole and in order, up to 100 bytes, its doubled bytes 255 resolved; the final zero is written behind the buffer if and only if it has 100 bytes or more |
| TelnetFilter.TextArrives | src/comm.c:674-677 | the object is told the text of a suboption as it was sent, zeros quoted |
| TelnetFilter.TerminalTypeArrives | src/comm.c:654-659 | the object is told the name of the terminal as it was sent |
| TelnetFilter.WindowSizeArrives | src/comm.c:660-673 | the size of the window is told right if and only if none of its four bytes is 73 |
| TelnetFilter.AnswersSwallowNext | src/comm.c:685-736 | the byte behind a command without an option is data if and only if the command is not BREAK, IP, AYT or AO |
| CommandLines.CommandsAppend | src/comm.c:1521-1576 | commands in a buffer are found once, and later bytes only continue the last piece |
| CommandLines.NewlineResolves | src/comm.c:628-636 | the space and backspace that stand for a newline leave no trace in the command |
| CommandLines.LinesAreCommands | src/comm.c:619-642 | stored data without zeros holds one command for each line, in order, empty lines included, each resolved |
| CommandLines.OneLineEach | src/comm.c:628-636 | one line for each newline |
| CommandLines.TailGrows | src/comm.c:1305-1333 | a read of n bytes makes a partial command longer by at most n |
| CommandInput.ReadIsAccounted | src/comm.c:1367-1391 | reading loses and invents no command |
| CommandInput.TakeIsAccounted | src/comm.c:1485-1496 | nor does handing one out |
| CommandInput.CommandsAreLines | src/comm.c:1300-1510 | over all runs of reads and commands: what was handed out since the last flush are the first lines of the data, resolved, and with nothing pending all of them |
| CommandInput.Interactive.CopyChars | src/comm.c:608-781 | the loop over the bytes stores the data of the filter behind the text |
| CommandInput.Interactive.GetUserData | src/comm.c:1300-1391 | reads as much as there is room for and appends its data; throws the buffer away if and only if it holds more than 1663 bytes |
| CommandInput.FlushLosesCommands | src/comm.c:1318-1331 | a read loses commands if and only if the buffer holds more than 1663 bytes and a complete command, and then all that are complete |
| CommandInput.LoseCommands | src/comm.c:1300-1391 | two reads after which 600 commands are lost |
| CommandInput.Interactive.CmdInBuf | src/comm.c:1581-1614 | says whether a complete command is there |
| CommandInput.Interactive.FirstCmdInBuf | src/comm.c:1521-1576 | skips null input, moves a partial command to the front, and says whether there is a command |
| CommandInput.Interactive.NextCmdInBuf | src/comm.c:1619-1636 | the first command is gone and nothing else |
| CommandInput.TelnetNeg | src/comm.c:1940-1960 | a command with its backspaces resolved |
| CommandInput.Interactive.TakeCommand | src/comm.c:1465-1496 | hands out the first command if and only if one is complete |
| Snooping.NobodySnoopsHimself | src/comm.c:1910-1916 | no chain of links leads back to where it began |
| Snooping.Snoops.IsMet | src/comm.c:1910-1916 | the loop check ends and says whether the link would close a circle |
| Snooping.Snoops.SetSnoop | src/comm.c:1877-1933 | refuses exactly the circles and destructed objects; otherwise makes the link, ends what either of them did before, and keeps links inverse and acyclic |
| Snooping.Snoops.Disconnect | src/comm.c:1679-1686 | nobody watches or is watched by a user who has left |
| Snooping.RaisedIsRanked | src/comm.c:1918-1932 | a link that closes no circle leaves an order in which all links go down |
| HeartBeat.RoundServesAll | src/backend.c:378-458 | whatever the objects add and remove, a complete round has given every listed object that was not removed one turn, in order, and nobody else one |
| HeartBeat.RoundServesPrefix | src/backend.c:410-449 | in a round that is cut short those served come first; and -1 <= index < to-do between calls |
| HeartBeat.RemovedIsOk | src/backend.c:485-507 | taking an entry off moves the marks so that nobody is skipped or served twice |
| HeartBeat.AddedIsOk | src/backend.c:520-540 | an entry added in a round is not part of it |
| HeartBeat.ServedIsOk | src/backend.c:411-442 | whose turn it is, is listed, was listed at the start and had none yet |
| HeartBeat.BeatsOncePerPeriod | src/backend.c:417-421 | how often an entry that is counted down is called in n turns |
| HeartBeat.HeartBeats.Begin | src/backend.c:407-409 | a round begins with all objects that are listed |
| HeartBeat.HeartBeats.Serve | src/backend.c:411-441 | one turn: ticks are counted down, and the object is called when they are used up |
| HeartBeat.HeartBeats.Advance | src/backend.c:442-450 | the next turn, or the end of the round |
| HeartBeat.HeartBeats.SetHeartBeat | src/backend.c:479-543 | adds, changes or removes an entry, during a round too; the flag of an object tells whether it is listed |
| HeartBeat.HeartBeats.QueryHeartBeat | src/backend.c:460-472 | the period of a listed object, 0 otherwise |
| HeartBeatRuns.CallsOverRun | src/backend.c:411-441 | over all runs, the calls of an object follow from its turns and its period alone, whatever the others do |
| HeartBeatRuns.OneTurnPerRound | src/backend.c:407-449 | over all runs, an object that stays listed has one turn in each round, at most one if rounds are cut short |
| HeartBeatRuns.CalledOncePerPeriod | src/backend.c:378-458 | over all runs of complete rounds, an object with a period is called in every period-th round |
| HeartBeatRuns.LeftAfter | src/backend.c:410-449 | whatever is added or removed, every turn leaves fewer turns to the round |
| HeartBeatRuns.CallHeartBeat | src/backend.c:378-458 | the loop of a round ends for all reactions of the objects; it is one round of the runs, and calls no more objects than were listed |
| ArraySets.RootIsMinimum | src/array.c:1332-1415 | the root of a heap with holes is its least value |
| ArraySets.SiftUp | src/array.c:1376-1386 | a new value rises to its place although the loop goes on to the root |
| ArraySets.TakeRoot | src/array.c:1392-1411 | the root goes out, the smaller values move up, and no value ever lies below a hole |
| ArraySets.SinkOn | src/array.c:1395-1408 | one level of that |
| ArraySets.AlistSort | src/array.c:1332-1415 | a sorted permutation; an array others refer to stays as it is |
| ArraySets.Finds | src/array.c:1435-1468 | the binary search finds exactly what is there |
| ArraySets.Subtract | src/array.c:1417-1509 | exactly the elements of the minuend that the subtrahend does not have, in order |
| ArraySets.WithoutKeeps | src/array.c:1417-1509 | each as often as before |
| ArraySets.Merge | src/array.c:1581-1613 | draining one array against the other, sorted one |
| ArraySets.Intersect | src/array.c:1511-1665 | the values of the second array that the first one has, in ascending order, as often as the second one has them |
| StringTable.PlacesAreChained | src/compiler.c:1065-1089 | a place is on the chain of its string's hash value and no other, and a tag bit is set exactly when its chain is not empty |
| StringTable.InsertedIsOk | src/compiler.c:1085-1120 | a new string takes the least free place; the table is the old map with one more entry |
| StringTable.ErasedIsOk | src/compiler.c:1140-1172 | the last reference gone, the table is the old map without the string |
| StringTable.RecountedIsOk | src/compiler.c:1077-1083 | counting a reference changes nothing else |
| StringTable.LinksSkip | src/compiler.c:1144-1160 | unlinking a place leaves the rest of its chain |
| StringTable.ProgramStrings.Search | src/compiler.c:1075-1084 | following a hash chain finds the string if the table has it |
| StringTable.ProgramStrings.StoreProgString | src/compiler.c:1058-1121 | the same string has the same place and one more reference; a new one gets the least free place and one reference |
| StringTable.ProgramStrings.FreeProgString | src/compiler.c:1123-1173 | one reference less, and the string goes with the last one; an index out of range changes nothing |
| StringTable.BytesAreLost | src/compiler.c:1054-1062 | the hash is the one the macro intends if and only if the second and the fourth byte of the address are the same |
| StringTable.NeighboursCollide | src/compiler.c:1054-1062 | within 64 KB two addresses share a chain if and only if their lowest bytes are the same |
| StringTable.SecondByteIsLost | src/compiler.c:1054-1062 | addresses that differ in the second byte alone collide, and would not with the hash intended |
| FunctionTable.CompareIsOrder | src/binaries.c:233-251 | the comparison is one that can be sorted by |
| FunctionTable.SwapPlaces | src/binaries.c:287-301 | after a swap the rest of the permutation is right again |
| FunctionTable.SortFunctionTable | src/binaries.c:253-301 | the swaps put old[temp[i]] into place i, for every permutation, and inverse undoes temp |
| FunctionTable.TableIsSorted | src/binaries.c:233-301 | with indices that are sorted the table is sorted, functions with a # last |
| FunctionTable.RemapEntries | src/binaries.c:332-342 | every runtime entry leads to the function it led to before; inherited ones stay |
| FunctionTable.CopyIsRight | src/binaries.c:344-347 | for any cells, equal or not, and any indices, the loop over type_start is right if and only if each cell taken from an overwritten one has the value that overwrote it |
| FunctionTable.CopyOfDifferentCells | src/binaries.c:344-347 | for different cells it is right if and only if the permutation moves nothing |
| FunctionTable.ExchangeLosesCell | src/binaries.c:344-347 | two cells that change places: one value is lost |
| EdBuffer.Editor.GetPtr | src/ed.c:888-903 | the line with the number, from either end of the ring |
| EdBuffer.Editor.Ins | src/ed.c:980-1006 | the lines of the text stand behind the current one, which is the last of them now |
| EdBuffer.Editor.Del | src/ed.c:379-405 | exactly the lines of the range go, its ends moved to lines that exist, and exactly they are freed |
| EdBuffer.Editor.Join | src/ed.c:1013-1044 | the texts of the range become one line, unless that is too long |
| EdBuffer.Editor.Move | src/ed.c:1051-1076 | the block stands behind the line given; no line is lost, doubled or changed |
| EdBuffer.Editor.Transfer | src/ed.c:1079-1105 | copies of the range stand behind the line given, even when it lies in the range and the numbers of the lines shift while they are copied |
| EdBuffer.Unlink | src/ed.c:1064-1064 | what is left of the ring is a ring, and the block hangs together |
| EdBuffer.Link | src/ed.c:1071-1072 | a block linked in makes a longer ring |

## Left out

Of the compiler and the machine:

- strings, reals, globals, calls, efuns, `foreach`, `catch`, function constructors and line numbers in the code generator; a switch is modelled beside the statements, not inside of them.
- 32-bit overflow of the arithmetic of the machine, and of the product in the direct lookup of a switch.
- CodeGenerator.GenerateFunction: asks for code of at most 0x7fff bytes, because the source keeps offsets in shorts and does not look at overflow; growing the memory block of the code is not modelled.
- switches over strings, and the lookup tables nested in ranges, which `i_generate_node` never makes.
- the order of labels is taken from `quickSort`, which is assumed to sort.
- the comma expression as an operand: it is modelled where its value is dropped, as a statement and as the first or third part of a `for`.
- SwitchCompiler.GenerateBody: takes the code between two labels as given bytes; the statements that make such code are modelled beside the switch.
- Optimizer.OptimizerKeepsMeaning: is one half only, because whether a run really reaches a local that was destroyed cannot be read off the program; leaves out `foreach`, efuns with lvalues, destructed objects in locals, and the rounding of reals.
- `optimize_icode`, which is not called.

Of the other parts:

- AvlNodes.Delete: does not say whether a node is freed before or after the caller's routine has its datum.
- ReplaceString.ReplaceString: leaves out what `memcpy` does where source and target overlap, which is taken for a copy from the left; nothing is said about the bytes of a result once something was written behind the new string.
- CallOut.CallOuts.NewCallOut: leaves out the arguments of a call, among them destructed objects.
- Allocator.Arena.Realloc: asks for a pointer to a block that exists; headers are kept apart from the memory of the blocks, and the debugging marks are left out. For a freed block that is not found the size is taken for unlimited, as the comment in the source says; the shift that computes it is undefined.
- CommandInput.Interactive.GetUserData: leaves out the end of a connection, the ports that are not telnet, and the copy for a snooper; whether a user is in single-character mode does not change.
- CommandInput.Interactive.TakeCommand: leaves out the turns the users take; it models what happens to one of them.
- TelnetFilter.SuboptionArrives: leaves out what stands behind the suboption buffer; after a write there the model goes on as if the zero had been stored. A byte 255 beyond the hundredth of a suboption is left out here, but not in the filter.
- Snooping.Snoops.SetSnoop: leaves out the messages to the users and the move of a connection to another object.
- HeartBeat.HeartBeats.Serve: leaves out errors in a heart beat, which end the round, and the width of the tick counters; a round that is cut before its first turn does nothing.
- ArraySets.AlistSort: leaves out reference counts, the sharing of strings and destructed objects, which count as 0; keys are compared as integers without overflow.
- StringTable.ProgramStrings.StoreProgString: leaves out the limit of a short on the number of strings; the tag bits are modelled one by one and not in bytes.
- StringTable.ProgramStrings.FreeProgString: asks that a place within the table is in use; freeing a free place, which the compiler never does, searches a chain that may not exist.
- FunctionTable.SortFunctionTable: takes the sorted indices from `quickSort`, which is assumed to sort; compressed function tables are left out.
- EdBuffer.Editor.Move: takes a destination and a range within the buffer, as the parser of commands leaves them.
- regular expressions, `doglob`, auto-indentation and the files of the editor.
- sockets, `select`, signals, logging, statistics, help texts, mappings and the object system.
