# TooLegitToJit in Dafny

TooLegitToJit compiles Lua 5.2 bytecode to MIPS machine code. This project models its code
generation and its upvalue runtime, and proves that running the emitted words means the simple
thing that was asked for.

## How the model is built

*The target.* `Mips.dfy` is a step semantics of the MIPS32 instructions the compiler emits: 32-bit
registers that wrap, word memory, a program counter and a branch delay slot, after the instruction
descriptions of "MIPS32 Architecture for Programmers, Volume II". `Runs` is reachability in that
semantics. Words are signed integers in [-2^31, 2^31); every wrap-around is written out.

*The emitter.* `Emitter32.dfy` holds the class of the code buffer, jump table, label lists and
branch list, with its growth macro and its in-place linker. Its ghost `script` lists what was
emitted, labelled and noted; `Script.dfy` says what linking a script must give, and the methods are
proved to keep buffer and script in step.

*The lowering.* `Machine.dfy` holds the class of the physical machine, with packed reference counts.
Each `mips_*` emitter is a method on those two objects whose contract is exact: the script grows by
a named piece of code, the temporaries end as they began. Each such piece of code is a function, and
lemmas run it on the step semantics; `Jumps.dfy` runs absolute jumps and returns. `Held(t, T, hi,
lo, y, x)` is the relation that makes this compositional: state x is state y to anyone with T
temporaries live, while temporaries T up to hi are held on top of them, every displaced value
waiting in its own spill slot. `Sim` is the case hi = T.

*The compiler.* `Bytecode.dfy` gives each modelled bytecode its meaning and its script,
`SimulateGo.dfy` runs each script inside linked code, `SlowPaths.dfy` when operands are not numbers,
`Program.dfy` lays a function out, and `Forward.dfy` proves forward simulation over whole runs.
`LuaForward.dfy` restates it against Lua's own FORLOOP, which the compiled one is not.
`NumericFor.dfy` shows which values a loop visits and that it completes.

*Upvalues.* `Func.dfy` has the objects and methods of func.c. `Upvalues.dfy` is the same state as a
value, and `Cells.dfy` proves that runs over it refine runs where each variable is a heap cell;
`Descending.dfy` adds that frames capturing in descending address order may close anywhere.

*Calls.* `ArgMoves.dfy`, `ParallelMoves.dfy` and `ArgAssign.dfy` treat the argument-register
resolver, `Marshal.dfy`, `Ccall.dfy` and `CcallRun.dfy` calls of C functions (o32 convention:
"System V ABI MIPS Processor Supplement", chapter 3, function calling sequence), `Saves.dfy` and
`SaveRoutines.dfy` the shared routines entered at computed offsets, `Synthetic.dfy` pushes and pops,
`Calls.dfy` the frame protocol, `FrameRuns.dfy` its code run from call to return, `CallSites.dfy` a
call as its caller sees it, `Closing.dfy` what closure_close is called with, `Counts.dfy` open
argument counts, `CopyLoop.dfy` and `CopyRun.dfy` the copying of arguments and results,
`VarResults.dfy` the routine that takes a variable number of results, `Xlogue.dfy` the emitters of
all of these. `Examples.dfy` has concrete programs that meet the hypotheses of the main theorems.

## Where the code departs from its intent

Each of these is proved, with the exact condition under which the intent holds.

- Compare-and-branch subtracts, so it is right if and only if the difference fits 32 bits
  (`BranchCode.IneqRightIff`), and it loses a register compared with itself
  (`BranchCode.SameRegisterLost`).
- Signed division by a power of two floors; the interface promises truncation
  (`ArithOps.ShiftTruncatesIff`).
- LT and LE with pred set pick a branch that is not the negation (`SimulateGo.SkipsRightIff`), though
  with the verdict of the call the test is right (`SlowPaths.VerdictGoes`).
- FORLOOP writes R(A+3) before its test and tests as if the step were positive
  (`Bytecode.StepsAgreeIff`).
- A cycle among argument registers is "broken" by a stack reference that nothing stores, and a self
  edge is read as a stack slot (`ParallelMoves.ParallelIff`, `ParallelMoves.SwapLost`). A self edge is what the compiler's own
  calls can pass (`Closing.SelfEdgeLost`).
- `closure_close` stops at the first larger address though the list is not sorted
  (`Upvalues.ClosesExactlyIff`); frames that capture in descending address order keep it sorted
  (`Descending.DescendingUpvaluesAreCells`). Returns are sound (`Cells.ExitClosesFrame`).
- JMP with A > 0 means to close from register A + 1, where Lua closes from A - 1
  (`Upvalues.CloseFromNextIff`). As emitted it does not even do that: the address is in a0, its own
  argument register, and the resolver replaces it by the word at sp + 1 (`Closing.SelfEdgeLost`,
  `Closing.AddressLost`), so that the jump is right in every state only when nothing is open
  (`Closing.JumpClosesIff`, `Closing.JumpMissesRegisterThree`).
- The routine that takes a variable number of results keeps ra in the word under sp while it copies
  them, so it returns to its caller if and only if they fit the frame's registers; one more, and it
  returns to a Lua value (`VarResults.ResultsFitIff`, `VarResults.TwoResultsForOne`).
- When they do not reach the end of the frame, sp stays above its lowest homes, and the next call
  pushes the callee's saved words over locals: a call gives the locals back if and only if sp is at
  or below the lowest home (`CallSites.CallGivesBackIff`, `CallSites.NextCallGivesBackIff`,
  `CallSites.NoResultsThenCall`), which is also exactly when saved words and homes are apart
  (`Calls.HomesNotSavedIff`, `Calls.FramesNestIff`).
- Two immediates are folded with signed division in udiv as well (`ArithOps.FoldUnsignedIff`).
- The guard of the caller-saved routine opens one word early for a tail that starts at an odd slot
  (`Saves.TempEntryIff`).
- The shipped register table lists `_t6` twice (arch/mips/machine.c:155), so in a frame of eight
  locals two of their halves share a register (`Frame.ShippedTableCollides`,
  `Frame.SlotsApartIff`). `Target.Valid` asks for a table without duplicates, which the table is
  once the entry is corrected (`Frame.RepairedTableValid`).

## Model

| member | source | states |
|---|---|---|
| Machines.Machine.constructor | arch/mips/machine.c:145-157 | A machine starts with every reference count zero over a duplicate-free register table, temporaries first. |
| Machines.Machine.AcquireTemp | temporaries.c:21-55 | Hands out temporary T in the register T mod n, emits a spill of the value that register held to that value's own slot exactly when T >= n, and moves the packed counts one step up the staircase; max_access becomes the larger of itself and the new T. |
| Machines.Machine.ReleaseTemp | temporaries.c:57-82 | Undoes the last acquire: emits the reload of what it displaced exactly when more than n were live, says whether it did, and moves the counts one step down. |
| Machines.Machine.TempsAccessed | temporaries.c:85-94 | The number of live temporaries is recovered from the packed reference counts alone. |
| Machines.OffsetIsSlot | temporaries.c:17-19 | The offset computed from register index and count is the slot of exactly the temporary being displaced, one that no other temporary uses. |
| Temporaries.StairNext | temporaries.c:33-52 | Reference counts form the staircase T/n + (i < T mod n); one more temporary raises exactly step T mod n. |
| Temporaries.AcquireKeepsStack | temporaries.c:21-55 | The code of an acquire keeps the value of every older temporary, in its register or in its slot, and everything the caller owns. |
| Temporaries.ReleasePopsStack | temporaries.c:57-82 | The code of a release pops: the values of all older temporaries are as they were. |
| Temporaries.TempsRefineStack | temporaries.c:17-94 | Any sequence of acquires, writes and releases refines an unbounded LIFO stack of values, for any number of registers and of any length, as long as no more temporaries are ever live at once than have a slot within sixteen bits of sp; non-temporary registers and memory at or above sp are left alone. |
| Temporaries.NewestDistinct | temporaries.c:17-55 | The newest n temporaries are in distinct registers and the slots of spilled ones are distinct and below sp. |
| Coregisters.LoadCoregisters | temporaries.c:134-161 | Each operand that is not a register gets a temporary of its own, loaded with spilling off; the others are left in place; the count of temporaries taken is returned. |
| Coregisters.CoregLoads | temporaries.c:129-161 | Running that code leaves all operands in registers at the same time, each with its original value, when no more are loaded than there are temporaries. |
| Coregisters.LoadThenUnload | temporaries.c:134-166 | Loading operands and releasing the temporaries again restores everything the loads displaced. |
| Arithmetic.ReleaseTempN | temporaries.c:97-100 | n releases in a row emit the releases of the n newest temporaries, newest first. |
| Machines.LoadIm | arch/mips/machine.c:37-46 | Emits the one-word or two-word load chosen by the range of the immediate. |
| Moves.LoadImLoads | arch/mips/machine.c:32-46 | Every 32-bit immediate reaches its register whole, in either form. |
| Machines.LoadReg | arch/mips/machine.c:48-68 | Emits the load of an operand into a register and redirects the caller's operand to that register. |
| Machines.Move | arch/mips/machine.c:71-94 | Emits the move for every pair of operand kinds, memory to memory through a temporary that it acquires and releases. |
| Moves.MoveMoves | arch/mips/machine.c:71-94 | Running a move is the assignment it names, for every placement of source and destination, even when its temporary spills. |
| Arithmetic.AcquireReg | arch/mips/arithmetic.c:51-88 | Puts the destination and both sources where an instruction can use them, acquiring at most the temporaries counted. |
| Arithmetic.ReleaseReg | arch/mips/arithmetic.c:90-97 | Stores the result if its home is memory, then releases the temporaries. |
| Arithmetic.DoBop | arch/mips/arithmetic.c:99-113 | The common shape acquire, operate, release; the allocator ends as it began. |
| Arithmetic.DoAdd | arch/mips/arithmetic.c:116-136 | Addition with the immediate form when it fits, constants folded; also used for negated immediates. |
| Arithmetic.MipsAdd | arch/mips/arithmetic.c:138-140 | Emits the lowering of add, with the allocator as it was. |
| Arithmetic.MipsSub | arch/mips/arithmetic.c:142-157 | Emits the lowering of sub, as an addition of the negation when the immediate can be negated. |
| Arithmetic.MipsMul | arch/mips/arithmetic.c:159-173 | Emits the lowering of mul, a shift when one factor is a power of two. |
| Arithmetic.MipsOr | arch/mips/arithmetic.c:175-180 | Emits the lowering of or. |
| Arithmetic.MipsDiv | arch/mips/arithmetic.c:182-210 | Emits the lowering of sdiv and udiv, a shift for a power-of-two immediate. |
| Arithmetic.MipsSmod | arch/mips/arithmetic.c:212-215 | Emits the lowering of smod. |
| ArithOps.TwoTempsEnough | arch/mips/arithmetic.c:51-88 | No lowering ever holds more than two temporaries. |
| ArithOps.AddExact | arch/mips/arithmetic.c:116-140 | Executing the code of add leaves s + t mod 2^32 in d and changes nothing else a caller can see, for every accepted placement of d, s, t in register, memory or immediate, with d aliasing either source and with spilling. |
| ArithOps.SubExact | arch/mips/arithmetic.c:142-157 | The same for s - t mod 2^32, in both forms it is emitted. |
| ArithOps.MulExact | arch/mips/arithmetic.c:159-173 | The same for s * t mod 2^32, by multiplication or by shift. |
| ArithOps.OrExact | arch/mips/arithmetic.c:175-180 | For or, every bit of d ends set exactly when that bit of s or of t was, and nothing else a caller can see changes. |
| ArithOps.SdivOutcome | arch/mips/arithmetic.c:182-206 | Signed division: the quotient that the code as written computes, truncated in general and floored when it is emitted as a shift. |
| ArithOps.ShiftTruncatesIff | arch/mips/arithmetic.c:188-193 | The shift agrees with the promised truncation if and only if the dividend is not negative or divides evenly. |
| ArithOps.ShiftFloorsMinusOne | arch/mips/arithmetic.c:188-193 | Concrete input where it does not: -1 divided by 2. |
| ArithOps.UdivOutcome | arch/mips/arithmetic.c:182-210 | Unsigned division: the code leaves the unsigned quotient, by division or by shift, and the signed one when it folds two immediates. |
| ArithOps.FoldUnsignedIff | arch/mips/arithmetic.c:18-27 | The fold is the unsigned quotient if and only if dividend and divisor are not negative, or the divisor is 1, or they are equal, or the dividend is not negative and below the divisor's magnitude. |
| ArithOps.FoldedMinusOne | arch/mips/arithmetic.c:18-27 | Concrete input where it is not: -1 and 2. |
| ArithOps.SmodExact | arch/mips/arithmetic.c:212-215 | smod leaves the remainder with the sign of the dividend, as the interface promises. |
| Words.Ilog2 | include/bit_manip.h:45-51 | The shifting loop computes the exponent of the largest power of two not above x. |
| Words.PowerOf2 | include/bit_manip.h:58-62 | The and-with-predecessor test holds exactly of powers of two, which are recovered from their logarithm. |
| Words.TruncDivContract | include/machine.h:35-41 | Truncating quotient and remainder: recombine to the dividend, remainder smaller than the divisor and with the dividend's sign. |
| Words.OrBits | arch/mips/arithmetic.c:175-180 | Each bit of an or is set if and only if it is set in either operand, for every bit position. |
| Words.AndBits | include/bit_manip.h:58-62 | Each bit of an and is set if and only if it is set in both. |
| Branch.MipsBranch | arch/mips/branch.c:33-52 | Notes the destination of the branch about to be emitted, a VM line or a local label. |
| Branch.MipsB | arch/mips/branch.c:62-81 | Emits an unconditional branch with a nop in its delay slot. |
| Branch.MipsBAbs | arch/mips/branch.c:62-81 | Emits a jump to an absolute address given directly or held in an operand. |
| Jumps.JumpRuns | arch/mips/branch.c:62-81 | Running those words reaches the word at the target's value divided by four, for an immediate, a register and memory alike, and after the delay slot every live temporary, all other registers and memory above the spill area are as before. |
| Jumps.ReturnRuns | arch/mips/call.c:98-101 | A return reaches the word at ra and changes nothing. |
| Branch.DoEquv | arch/mips/branch.c:90-134 | The matching with its rematch: ends after at most one swap, and puts exactly one instruction in the delay slot. |
| Branch.MipsBeq | arch/mips/branch.c:136-139 | Emits the lowering of beq and leaves the temporaries counted as before. |
| Branch.MipsBne | arch/mips/branch.c:141-144 | The same for bne. |
| BranchCode.EquDecides | arch/mips/branch.c:90-144 | For every accepted mix of operands, beq is taken if and only if the operands are equal, bne if and only if not; on both paths, after the delay slot, every register, every live temporary and all memory above the spill area are as before. |
| Branch.IneqLoadTemp | arch/mips/branch.c:146-154 | Loads an operand that cannot be used in place into a temporary and reports it. |
| Branch.MipsInequality | arch/mips/branch.c:156-190 | Emits subtract, branch on sign, and the one-instruction restore or reload in the delay slot. |
| Branch.MipsBlt | arch/mips/branch.c:193-196 | Emits the lowering of blt with the allocator as it was. |
| Branch.MipsBgt | arch/mips/branch.c:198-201 | The same for bgt. |
| Branch.MipsBle | arch/mips/branch.c:203-206 | The same for ble. |
| Branch.MipsBge | arch/mips/branch.c:208-211 | The same for bge. |
| BranchCode.IneqDecides | arch/mips/branch.c:156-190 | An inequality branch is decided by the sign of the wrapped 32-bit difference, and on both paths s, t, memory and every live temporary are unchanged. |
| BranchCode.IneqRightIff | arch/mips/branch.c:146-211 | It is taken exactly when the signed comparison holds if and only if the difference fits a word. |
| BranchCode.OverflowMisleads | arch/mips/branch.c:156-190 | Concrete operands whose difference overflows and whose branch is wrong. |
| BranchCode.SameRegisterLost | arch/mips/branch.c:176-188 | Comparing a register with itself leaves it zero: the delay slot cannot restore it. |
| Emitter32.Emitter.Grow | emitter32.c:221-231 | After growth the need fits, earlier words survive, the size is 16 times a power of two below twice the need, and the old length told to realloc is the true one on every growth but the first. |
| Emitter32.Emitter.EncodeOp | emitter32.c:234-238 | Appends one word and keeps all the emitter's invariants. |
| Emitter32.Emitter.GrowthIsLinear | emitter32.c:221-238 | Over any number of emissions: size <= bufsize, bufsize is none or 16 times a power of two and below twice the size once past 16, and the bytes ever copied by reallocation are at most twice the code's. |
| Emitter32.Emitter.LabelPc | emitter32.c:90-95 | Records the current emission index for a VM line and the greatest line seen. |
| Emitter32.Emitter.LabelLocal | emitter32.c:97-115 | The insertion point found by the scan is always the end of the list, which stays sorted. |
| Emitter32.Emitter.BranchPc | emitter32.c:118-125 | Queues a branch to a VM line for linking. |
| Emitter32.Emitter.BranchLocal | emitter32.c:127-135 | Queues a branch to a local label, forward or backward. |
| Emitter32.Emitter.FindLocalLabel | emitter32.c:192-213 | Finds the first label after the branch, or the last one strictly before it. |
| Emitter32.Emitter.PatchWord | emitter32.c:57-72 | Rewrites the low half of exactly one branch word and no other. |
| Emitter32.Emitter.Link | emitter32.c:48-76 | In-place patching of every queued branch leaves the linked form of the script in the buffer and the queue empty. |
| Script.LabelsSorted | emitter32.c:97-115 | Label lists are sorted, since emission only grows. |
| Script.LinkKeeps | emitter32.c:48-76 | Every word that is not a noted branch is linked unchanged. |
| Script.LinkPatches | emitter32.c:48-76 | A noted branch keeps its opcode half and gets its own destination's offset. |
| Script.LinkLandsOnLine | emitter32.c:48-76 | A branch to a VM line lands on that line's jump-table entry if and only if the distance fits 16 bits, for any interleaving of events. |
| Script.LinkLandsOnNext | emitter32.c:48-76 | A forward local branch lands on the first same-numbered label emitted after it, however often the number is reused, if and only if the distance fits 16 bits. |
| Script.LinkLandsOnPrev | emitter32.c:48-76 | A backward local branch lands on the last same-numbered label strictly before it, if and only if the distance fits 16 bits. |
| Frame.SlotsApart | frame.c:75-111 | On a table without duplicates, different slots of a frame are in different places, registers or stack. |
| Frame.SlotsApartIff | frame.c:75-111 | They are so if and only if the registers the frame reaches in the table are distinct. |
| Frame.ShippedTableCollides | arch/mips/machine.c:152-156 | With the shipped table, the type of local 6 and the value of local 7 share a register. |
| Frame.RepairedTableValid | arch/mips/machine.c:139-157 | With the repeated entry corrected, the table meets everything the other results ask of a machine. |
| Frame.HomeReached | frame.c:62-68 | The sixteen-bit offset of each slot reaches its own stack home. |
| Frame.SlotUpd | frame.c:75-111 | Writing one slot changes that slot and no other, and leaves the frame in place. |
| Compile.Assign | synthetic.c:11-14 | Emits the moves of value and type. |
| Compile.EmitBop | liarith.c:105-150 | Emits tag test, call, and fast path with its two crossing local branches. |
| Compile.EmitRelational | libranch.c:125-214 | Emits tag test, call with verdict, and the direct comparison chosen for opcode and pred, all skipping to line pc + 2. |
| Compile.EmitForprep | instruction.c:49-61 | Emits the subtraction and the jump to the loop instruction. |
| Compile.EmitForloop | instruction.c:63-87 | Emits the addition, the copy to R(A+3), the exit test and the jump back. |
| Compile.EmitInstr | main.c:260-390 | Dispatches one bytecode to its emitter, the emitter's pc naming its line. |
| Compile.LoadCode | main.c:238-395 | Header, then for each line its label and its code, then link: the buffer holds the linked script of the whole function. |
| Program.LineEntry | main.c:247-252 | The jump table entry of each line is the number of words emitted before it. |
| ScriptRun.FoundResolvable | emitter32.c:192-213 | Every local branch finds a label when each forward one has its label later and each backward one has it before some earlier word. |
| Program.UnitLinks | emitter32.c:48-76 | Every local branch of a laid-out function has its label, and the function links if and only if each branch is within 16 bits of its destination, which every function of at most 2^15 words is. |
| ScriptRun.ShortReachable | emitter32.c:57-72 | In a script of at most 2^15 words every branch is within reach of its destination. |
| Bytecode.StepsAgreeIff | instruction.c:63-87 | The compiled step is Lua's step, for every instruction and state, if and only if the instruction is no FORLOOP or its test direction and its early write of R(A+3) make no difference. |
| Bytecode.LoopTestRightIff | instruction.c:82-86 | The compiled loop test is Lua's if and only if the step is positive or the index is the limit. |
| SimulateGo.BopGoes | liarith.c:105-150 | On two numbers the linked code of ADD, SUB or MUL sets the destination's value and type to Lua's and keeps every other local, passing the call. |
| SlowPaths.BopDispatches | liarith.c:105-150 | In any linked script holding it, arithmetic gets to its fast path if both tags are zero and to the first word of the call otherwise, with every local and both operands as they were. |
| SlowPaths.BopRejoins | liarith.c:127-135 | After the call control jumps past the fast path to the end, and nothing changes. |
| SimulateGo.SkipsRightIff | libranch.c:183-214 | The branch chosen for EQ, LT or LE with pred skips as Lua does if and only if it is EQ, or pred is 0, or the operands differ. |
| SimulateGo.CmpGoes | libranch.c:125-214 | The linked comparison goes to line pc + 2 or falls through, as the chosen relation says, and keeps every local. |
| SlowPaths.CmpDispatches | libranch.c:125-160 | A comparison gets to its direct branch if both tags are zero and to the first word of the call otherwise, with every local and both operands as they were. |
| SlowPaths.VerdictGoes | libranch.c:140-151 | With the call's verdict in the temporary, control skips to line pc + 2 if and only if the verdict is not what pred asks, for every comparison and pred, and every local is kept. |
| SimulateGo.JumpGoes | libranch.c:178-180 | A linked jump goes to its label and changes nothing. |
| SimulateGo.AssignGoes | instruction.c:31-42 | The linked code of LOADK and MOVE sets the destination's value and type and keeps every other local. |
| SimulateGo.ForLoopGoes | instruction.c:63-87 | The linked FORLOOP goes back or leaves as its test says, with index and visible variable updated. |
| Forward.StepSimulated | main.c:247-252 | Each step of the machine model from line i to i' is matched by running the linked code from jt[i] to jt[i'], with every local's value and type where the frame says, in any function whose branches are in reach. |
| Forward.ForwardSimulation | main.c:238-395 | For every program of the modelled bytecodes whose branches are in reach and every run of any length, the linked code reaches the jump-table entry of the run's last line with every local equal. |
| Examples.SpinForever | main.c:238-395 | A concrete endless loop meets all the hypotheses, for runs of every length. |
| LuaForward.ShadowStep | instruction.c:63-87 | Against Lua's own meaning, the compiled step differs at most in loop variables whose loop has ended. |
| LuaForward.LuaSimulation | instruction.c:31-87 | Every Lua run that reads no loop variable after its loop is followed by the linked code: same line, and every register not such a variable equal, in any function whose branches are in reach. |
| NumericFor.CountedIs | instruction.c:49-87 | The values init, init + step, up to limit number max(0, (limit - init) / step + 1), value k is init + k * step, and the last test is the first value beyond. |
| NumericFor.ForVisits | instruction.c:49-87 | A compiled for with positive step whose last test does not overflow, when it completes, has run its body exactly for those values in R(A+3), and leaves after the loop. |
| NumericFor.ForCompletes | instruction.c:49-87 | It does complete whenever its body always comes back, provided the tests fit a word. |
| NumericFor.EmptyForCompletes | instruction.c:49-87 | In particular an empty for always completes, with no condition on a body. |
| NumericFor.ForRuns | instruction.c:49-87 | And the linked code entered at FORPREP runs the whole loop to the line after FORLOOP, with every local equal, branches being in reach. |
| Func.LuaState.FindStackupval | func.c:15-34 | Returns the open upvalue of a slot, the one already there or a fresh one at the head of the list; the new state is Capture of the old. |
| Func.LuaState.ClosureClose | func.c:40-60 | The loop over the list, redirecting val to the upvalue's own copy, is Close of the old state, the longest head at or below the base. |
| Func.ClosureCreate | func.c:65-83 | Every descriptor is resolved to the one open upvalue of its slot or to the parent's entry, with no parent for a main chunk, sharing what is open, with new upvalues at the head of the list. |
| Upvalues.FindFrom | func.c:15-34 | The first listed upvalue at an address, or none at all there. |
| Upvalues.CaptureWf | func.c:15-34 | Capturing keeps at most one open upvalue for each slot and disturbs no other. |
| Upvalues.CloseKeepsValues | func.c:40-60 | Closing never changes what is read through any upvalue, and keeps the list well formed. |
| Upvalues.ClosesExactlyIff | func.c:40-60 | Stopping at the first larger address closes exactly what was asked if and only if the list is split there and nothing open lies between the address passed and the one meant. |
| Upvalues.CloseFromNextIff | func.c:40-60 | closure_close called with the address of register A + 1 closes exactly the variables from register A - 1 if and only if the list is split there and neither A - 1 nor A is captured. |
| Upvalues.AscendingCapturesStayOpen | func.c:32-52 | Concrete run: captures made in ascending address order leave one open that should close. |
| Cells.StepRefines | func.c:15-83 | Every frame entry, capture, inheritance, read, write, block closing and return keeps the upvalue list and stack refining heap cells, and reads agree. |
| Cells.UpvaluesAreCells | func.c:15-83 | Over every run of any length, each read of a local or through a closure gives the value last written to that variable through any of its names, before and after it is closed. |
| Examples.MakerShares | func.c:15-83 | A concrete run: two closures over one local, what one writes the other reads after the frame is gone. |
| Cells.ExitClosesFrame | func.c:40-60 | A return closes exactly the returning frame's upvalues. |
| Descending.SortedSplits | func.c:40-60 | On a list in address order closing from any address closes exactly what is at or below it. |
| Descending.StepSorted | func.c:15-60 | Captures in descending address order between closings keep the list in order through every operation. |
| Descending.DescendingUpvaluesAreCells | func.c:15-83 | Over every run whose frames capture so, with block closings from any local, every closing is one that the refinement allows, and each read gives the value last written to that variable. |
| Closing.EmitJmp | libranch.c:161-180 | Emits, for A > 0, the address of register A + 1 in a temporary, the call of closure_close with it and the release, and then the jump. |
| Closing.OneArgAcyclicIff | arch/mips/call.c:226-247 | The graph of a one-argument call is free of cycles if and only if the argument is not in its own register already. |
| Closing.SelfEdgeLost | arch/mips/call.c:143-176 | An argument that is in its register already is a cycle of one: the only move loads it from sp + 1. |
| Closing.SelfEdgeReads | arch/mips/call.c:153-163 | In every state that argument becomes the word found there, where a parallel assignment would leave it. |
| Closing.AddressArrives | libranch.c:168-176 | With the address in any other temporary, a0 holds at the call what JMP meant to pass, saves of caller-saved locals included. |
| Closing.AddressLost | libranch.c:168-176 | With the address in a0, closure_close gets the word at sp - 15 instead. |
| Closing.FirstTempIsArgument | arch/mips/machine.c:152 | On MIPS the temporary acquired when none is live is a0. |
| Closing.JumpClosesIff | libranch.c:161-180 | JMP with A > 0, as emitted and run, closes exactly Lua's variables whatever memory holds if and only if: nothing is open at all, when the temporary is a0; the list is split at A + 1 and neither A - 1 nor A is captured, when it is another. |
| Closing.JumpResumes | libranch.c:161-180 | What JMP with A > 0 emits is the code up to that call, the call, and words after which sp, fp and every local are back; then the branch. |
| Closing.JumpMissesRegisterThree | libranch.c:161-180 | Concrete input: only register 3 captured and A = 1, and the jump need not close it. |
| Closing.ClosureArrives | xlogue.c:388-389 | The epilogue's argument, a stack word, does arrive in a0. |
| Closing.ReturnClosesFromCallee | xlogue.c:380-404 | So after any body a return calls closure_close with the called closure's slot. |
| ArgMoves.ZeroRow | arch/mips/call.c:109-116 | One more than the first column set, or zero if none is. |
| ArgAssign.FindSource | arch/mips/call.c:109-116 | The scan of a row of the matrix computes its source. |
| ArgAssign.IsFree | arch/mips/call.c:118-128 | The scan of a column says whether another row depends on it. |
| ArgAssign.ResolvCycle | arch/mips/call.c:130-140 | Edges out of one register are replaced by diagonal stack references kept in eight bits; nothing is emitted. |
| ArgAssign.ResolvePass | arch/mips/call.c:147-169 | One pass emits the move of each row that nobody else needs and clears it, counting as the source does. |
| ArgAssign.Round | arch/mips/call.c:146-175 | A pass, and the breaking of a cycle when it resolved nothing, lowers the measure of the loop. |
| ArgAssign.AssignArgRegs | arch/mips/call.c:143-176 | The do-while terminates on every single-source matrix, cyclic ones included, and emits the moves of all its rounds. |
| ArgMoves.RoundDrops | arch/mips/call.c:130-176 | Each round lowers (off-diagonal edges, edges) lexicographically: a pass that resolves nothing turns an off-diagonal edge into a self edge. |
| ArgAssign.ArgCodeRuns | arch/mips/call.c:143-176 | The emitted code does to the argument registers what the moves do, and touches nothing else. |
| ParallelMoves.AcyclicParallel | arch/mips/call.c:143-176 | For every size and every acyclic single-source graph, the moves in order leave each destination with the source's original value and every other register alone. |
| ParallelMoves.ParallelIff | arch/mips/call.c:130-176 | The moves are the parallel assignment in every state if and only if the graph is acyclic, self edges counting as cycles, while stack references stay within eight bits. |
| ParallelMoves.SwapLost | arch/mips/call.c:130-176 | Concrete input: two argument registers to be exchanged; the first gets the word 248 bytes above sp, which nothing stored. |
| ParallelMoves.AssignRightIff | arch/mips/call.c:143-176 | With at most 28 argument registers that condition always holds. |
| Marshal.MarshalPlaces | arch/mips/call.c:199-258 | For any number of arguments, just before the call each register argument is in a0 to a3 and argument i at sp + 4 i, with the value it had before anything moved, even when storing a stack argument spills a live argument register; fp, the caller's frame and other registers are kept. |
| Marshal.MarshalKeeps | arch/mips/call.c:199-258 | Whatever the arguments, cyclic or not, sp is lowered by their bytes and the caller's memory and other registers are kept. |
| Ccall.MipsStaticCcall | arch/mips/call.c:190-286 | Emits the whole call around its outside parts: saves, argument placement, call, stack and temporaries given back, result move; temporaries end as they began. |
| CcallRun.CcallRuns | arch/mips/call.c:190-286 | Running the whole emitted call: up to the callee the arguments get into place when they form no cycle, the caller's frame untouched; from whatever state the callee returns in with sp as it found it, sp ends where it was before the first word and r holds the callee's v0. |
| CcallRun.CcallTransparent | arch/mips/call.c:178-286 | With the caller-saved registers of the locals stored before and loaded after, sp, fp and every local are back after any callee that keeps sp, fp and the caller's stack, and r holds its result. |
| SaveRoutines.VregToPhysicalReg | frame.c:75-80 | The table index of a slot's register. |
| SaveRoutines.EmitXFrame | stack.c:19-46 | Emits the moves of locals off up to off + n, last first, and counts them. |
| SaveRoutines.JinitXAccess | stack.c:74-90 | Emits the shared routine for all register slots and records its size for one slot. |
| SaveRoutines.DoSpillOrFill | arch/mips/jfunc.c:55-83 | Emits the shared routine for the caller-saved slots and records its size for one slot. |
| SaveRoutines.LocalOffset | stack.c:102-110 | Computes the entry offset for n locals. |
| SaveRoutines.AnyTemps | arch/mips/call.c:178-188 | The scan from the last local down says whether any is caller-saved. |
| Saves.EnterShared | stack.c:19-110 | Entering a shared routine at its offset runs exactly the sequence specialised to n locals, when every slot past them is picked. |
| Saves.EnterAll | stack.c:19-110 | For the all-register routines that holds for every table and every count. |
| Saves.TempEntryIff | arch/mips/call.c:178-188 | With the guard, the caller-saved routine is never entered past its return if and only if the caller-saved tail starts at an even slot or is empty. |
| Saves.ShippedTail | arch/mips/machine.c:152-156 | With the shipped table the caller-saved registers are exactly those a callee may overwrite, and they start at an even slot, so the routine is always entered inside. |
| Saves.EnterTemps | arch/mips/jfunc.c:55-101 | And then it runs exactly the caller-saved registers of the locals. |
| Jumps.SharedReturns | stack.c:19-110 | Entered at the offset for n locals, a shared routine does what the sequence for n locals does and returns to the word at ra. |
| Saves.SaveStores | stack.c:19-46 | Saving puts each picked register in its home and changes nothing else. |
| Saves.LoadRestores | stack.c:19-46 | Restoring loads each picked register from its home and changes nothing else. |
| Saves.SaveThenRestore | stack.c:48-63 | Save, anything that keeps fp and the saved words, restore: every picked register is back and no other is touched. |
| Synthetic.Pushn | synthetic.c:23-39 | Emits the stores and the one adjustment of sp. |
| Synthetic.Popn | synthetic.c:41-57 | Emits the loads and the one adjustment of sp. |
| Synthetic.PushPushes | synthetic.c:23-39 | Each register is in its word under the old sp, and nothing else changed. |
| Synthetic.PushThenPop | synthetic.c:23-57 | Push, anything that keeps the words and sp, then pop in reverse: the registers and sp are back. |
| Xlogue.PreferNontempAcquireReg | xlogue.c:31-48 | Takes non-temporaries first and temporaries when they run out, emits nothing, and turns spilling off. |
| Xlogue.PreferredApart | xlogue.c:31-48 | The registers so taken are all different. |
| Xlogue.PreferNontempReleaseReg | xlogue.c:50-59 | Gives the temporaries among them back, emits nothing, and turns spilling on. |
| Xlogue.LclPro | xlogue.c:414-463 | Emits the link, the set-up of the argument copy and the jump to the closure's code. |
| Xlogue.Prologue | xlogue.c:200-222 | Emits room for the locals, then copying and loading of parameters if there are any. |
| Xlogue.JinitEpi | xlogue.c:380-404 | Emits the call of closure_close with the frame's closure, unwinding and return. |
| Calls.EnterEnters | xlogue.c:414-463 | Entering saves ra, fp and the closure's address, points fp at the saved fp and sp under the locals. |
| Calls.SetupSets | xlogue.c:435-446 | The code pointer is found through the closure and its prototype, source starts after the closure, destination at local 0, and no other register changes. |
| FrameRuns.PrologueRuns | xlogue.c:414-463 | From the shared prologue control gets through that pointer into the function's own prologue, with the frame entered, the argument count as passed and the number of parameters expected. |
| Calls.LocalsFill | frame.c:83-111 | The locals' homes are exactly the words from sp up to sp + 8 times their number, which is where the saved words begin. |
| Calls.LeaveLeaves | xlogue.c:391-400 | Leaving restores from the words above fp - 4, wherever sp is by then. |
| FrameRuns.EpilogueReturns | xlogue.c:380-404 | Run as a whole, the epilogue calls closure_close with the frame's closure and, whatever that does that keeps sp, fp and the stack above, gets to the word after the call with the caller's sp and fp back and the values' count and base passed on. |
| Calls.StandingNotSaved | xlogue.c:414-463 | No local's home that is at or above its own frame's sp is a word that any frame of the stack saved. |
| Calls.HomesNotSavedIff | xlogue.c:414-463 | No home at all is a saved word if and only if every frame that called another had sp at or below its lowest home. |
| Calls.SlotsAreHomes | frame.c:62-72 | The two halves of a slot that the upvalue list knows are homes of that local. |
| Calls.BodyKeeps | xlogue.c:158-198 | Any body of writes to its own locals, below sp, through open upvalues of outer frames and off the stack, of stack resizing, and of calls to any depth keeps fp and its frame's saved words, and changes nothing above on the stack but the waiting frames' homes at or above their sp. |
| Calls.CallDiscipline | xlogue.c:200-222 | A call of any closure, with calls nested to any depth and upvalue writes in any of them, returns with sp, fp and ra exactly as they were and the closure's address as result destination; on the stack of the callers only locals' homes at or above their frame's sp can have changed, and every word that any of them saved is intact. |
| Calls.UpvalueWritten | litabup.c:73-88 | And those do change: a callee that stores through an open upvalue whose home is at or above its frame's sp has written its caller's local. |
| Calls.ClosesFromCallee | xlogue.c:380-404 | All through a body the word under the saved fp is the called closure's slot, the address from which the epilogue closes upvalues. |
| Calls.FramesNestIff | xlogue.c:200-222 | The callee's frame meets none of the caller's homes if and only if sp was at or below the lowest of them, and then the frames nest as the upvalue refinement needs; only the called register and those after it are at or below the closing address. |
| CallSites.CallSparesHomes | instruction.c:104-126 | With sp at or below the lowest home, a call of any closure changes no home of its caller that it does not write as an upvalue. |
| CallSites.CallGivesBack | instruction.c:104-126 | Then storing the locals, calling any closure and loading the locals gives every local back, in registers and in memory. |
| CallSites.CallDelivers | xlogue.c:113-156 | And with the results of a fixed-count call copied before the locals are loaded, the locals from the called register on are the results and every other local is back. |
| CallSites.CallGivesBackIff | instruction.c:104-126 | A call gives every local back wherever it was made from if and only if sp is at or below the lowest home of the frame. |
| CallSites.LocalsOverwritten | xlogue.c:414-463 | Otherwise the two locals' halves under sp come back as the return address and the frame pointer. |
| CallSites.ResultsCoverIff | xlogue.c:579-583 | After n results from register base on, sp is at or below the lowest home if and only if base + n >= nrLocals. |
| CallSites.NextCallGivesBackIff | xlogue.c:549-590 | So the call after a variable-result call gives the locals back if and only if the results reached the end of the frame. |
| CallSites.NoResultsThenCall | instruction.c:104-126 | Concrete input: no results for register 0 of a frame of three, then a call; the type of local 0 is the return address and the value of local 1 the frame pointer. |
| CallSites.UpvalueOnSavedWord | litabup.c:73-88 | A callee that writes an upvalue whose home its own saved fp has taken returns with that value as fp. |
| Xlogue.EmitCallCount | xlogue.c:83-100 | Emits the argument count, fixed or from sp. |
| Xlogue.Precall | xlogue.c:67-111 | Emits the argument count, the address of the called register and the call of the prologue. |
| Xlogue.Postcall | xlogue.c:113-156 | Emits the number of results expected, when it is given, and the call that copies them. |
| FrameRuns.CallCountSets | xlogue.c:86-100 | Given or counted from sp, the count is the number of the arguments: narg - 1, or the fixed ones and the results before; memory and all other registers are kept. |
| FrameRuns.PrecallSets | xlogue.c:67-111 | A call passes that count and the address of the called register's home, and changes nothing else. |
| FrameRuns.PostcallExpects | xlogue.c:142-147 | A call for a fixed number of results expects nret - 1, and nothing else changes. |
| Xlogue.EmitReturnCount | xlogue.c:188-195 | Emits the result base and count, fixed or from sp. |
| Xlogue.DoRet | xlogue.c:168-198 | Emits the stores of the values when their number is given, count and base, and the jump to the epilogue. |
| FrameRuns.ReturnCountSets | xlogue.c:186-195 | Given or counted from sp, the count is the number of the values and the base is register b's home. |
| FrameRuns.ReturnReaches | xlogue.c:168-198 | Run as a whole, a return reaches the epilogue with count and base, and when the number is given that many values are in memory from the base down, as their locals held them. |
| Counts.OpenCallLowers | xlogue.c:92-100 | The three instructions are the lowering of the generic add, sub and udiv the source asks for. |
| Counts.OpenReturnLowers | xlogue.c:188-195 | The same for a return. |
| Xlogue.JinitVresultPostcall | xlogue.c:549-590 | Emits taking every result, putting ra in the word under sp, the copying call, fetching ra from there and setting sp from the copied destination. |
| Counts.VresultLowers | xlogue.c:579-583 | The one instruction that sets sp is the lowering of the generic add the source asks for. |
| Counts.VresultSets | xlogue.c:549-590 | sp set from the copied destination is right under the last result. |
| Counts.OpenCallCounts | xlogue.c:92-100 | An open call counts exactly its fixed arguments and the results before it. |
| Counts.OpenReturnCounts | xlogue.c:188-195 | An open return counts exactly its fixed values and the results before it. |
| Counts.ResultsBecomeArguments | xlogue.c:92-100 | From sp as the routine sets it after n results from register base on, an open call counts its fixed arguments and the n results; the routine as a whole is VarResults.ResultsThenCall. |
| Counts.ResultsReturned | xlogue.c:188-195 | From sp as the routine sets it, an open return counts its fixed values and the n results; the routine as a whole is VarResults.ResultsThenReturn. |
| VarResults.WholeRoutine | xlogue.c:549-590 | The words emitted for the routine run as its part before the copying call, that call's words, and its part after it. |
| VarResults.BeforeCopies | xlogue.c:560-571 | Up to the copying call: ra is in the word under sp, all results are expected, and no pointer and no other word has changed. |
| VarResults.ReturnAddressAfter | xlogue.c:563-574 | The return address fetched back is the one put there when the copy does not reach the word under sp, and the word of the results copied over it when it does. |
| VarResults.ReturnsIff | xlogue.c:549-590 | The routine returns to its caller whatever memory holds if and only if the word under sp is not among those the results are copied to. |
| VarResults.ResultsFitIff | xlogue.c:549-590 | With sp right under a frame of nrLocals, that is if and only if base + n <= nrLocals; otherwise the routine returns to the value of result number nrLocals - base. |
| VarResults.RoutineReturns | xlogue.c:572-588 | Run in code, the routine gets from the copy to the word after its call when the results fit, and to the word at a Lua value when they do not. |
| VarResults.TwoResultsForOne | xlogue.c:549-590 | Concrete input: two results for a frame of one register, and the routine returns to the value of the second. |
| VarResults.ResultsThenCall | xlogue.c:92-100 | When the results fit, the whole routine returns to its caller and the open call after it counts its fixed arguments and the n results. |
| VarResults.ResultsThenReturn | xlogue.c:188-195 | When they fit, the whole routine returns to its caller and the open return after it counts its fixed values and the n results, from the right base. |
| Xlogue.SynMin | synthetic.c:164-171 | Emits the minimum of the two counts, with its two paths. |
| Xlogue.DoCopying | xlogue.c:286-306 | Emits the loop, its local label number used twice. |
| Xlogue.JinitCpyArgRes | xlogue.c:350-360 | Emits the copying routine up to where padding starts. |
| CopyRun.CopyLinks | xlogue.c:350-360 | The routine's own labels and branches can be linked, with label number 0 used three times. |
| CopyRun.MinGoes | synthetic.c:164-171 | Running it leaves the smaller of two counts on whichever path. |
| CopyRun.LoopGoes | xlogue.c:286-306 | From any turn the linked loop runs to its end, for every count. |
| CopyRun.CopyGoes | xlogue.c:350-360 | For all counts the linked routine terminates having copied exactly min(exist, expect) values downwards, both pointers lowered by 8 times that, nothing else changed. |
| CopyRun.CopiedBlock | xlogue.c:286-306 | Where the destination is not below the source, or clear of it, that is one simultaneous block move. |
| CopyLoop.CopyBlockIff | xlogue.c:286-306 | For word-aligned blocks it is a simultaneous move in every state if and only if the destination is not below the source or is below all of it. |

## Left out

What a contract leaves out:

- Machines.Machine.AcquireTemp: `max_access` is tracked here only; what the launcher does with it is not modelled.
- Arithmetic.MipsDiv: a zero immediate divisor is excluded; a zero divisor at run time has no defined result on the target.
- Compile.EmitBop: the call for operands that are not numbers is a parameter, a sequence of words; that it is reached exactly when it should be is `SlowPaths.BopDispatches`.
- Compile.EmitRelational: the same holds for the call that compares operands that are not numbers.
- Compile.EmitInstr: other bytecodes (tables, closures, calls, JMP with A > 0) are opaque words without labels; a run is followed only while it stays on the modelled bytecodes.
- Forward.ForwardSimulation: steps are limited to number-tagged operands, to order comparisons whose difference fits 32 bits, to LT and LE with pred clear or operands that differ, and to functions whose branches fit sixteen bits, as `link` truncates any other offset silently; at least three temporary registers are assumed.
- BranchCode.EquDecides: a register compared with a nonzero immediate is not the zero register, which the pattern cannot restore.
- BranchCode.IneqDecides: two registers that are compared differ, see `BranchCode.SameRegisterLost`.
- ArgAssign.AssignArgRegs: each register has at most one source, which is how the caller builds the matrix.
- Marshal.MarshalPlaces: the machine has as many temporaries as argument registers, as the MIPS one has; memory arguments are based on fp and not below sp, no argument is sp itself, and the offsets of arguments from sp fit sixteen bits.
- Ccall.MipsStaticCcall: the call itself, the caller-saved stores and loads around it and the function address are parameters.
- CcallRun.CcallTransparent: the stores and loads are their effect, the sequences of `Saves.SaveStores` and `Saves.LoadRestores`, and not the calls of the shared routines, which are `Jumps.SharedReturns`; the callee is any change of state that keeps sp, fp and the caller's stack.
- Cells.UpvaluesAreCells: a frame's locals are those of its live registers, and no captured variable of the caller lies at or below the called register, as Lua's compiler arranges; its block closing is closure_close with the block's address, which JMP as emitted does not pass, see `Closing.JumpClosesIff`; that the list is split there is a condition, met by descending captures, see `Descending.DescendingUpvaluesAreCells`.
- Xlogue.PreferNontempAcquireReg: temporaries last for the values that need them, which the source's callers see to by asking when none is live.
- Xlogue.Prologue: copying and loading of the parameters are word sequences given from outside; `CopyRun.dfy` and `Saves.dfy` say what they do.
- Xlogue.JinitEpi: the jump to closure_close itself and the saves around it are word sequences given from outside.
- Xlogue.JinitVresultPostcall: the call of the copying routine is a word sequence given from outside.
- Closing.EmitJmp: the jump to closure_close itself and the saves around it are word sequences given from outside.
- Closing.JumpClosesIff: the word at sp - 15 is taken as readable, though a load from there is not aligned; the saves before the call are their effect, the sequence of `Saves.SaveStores`, and not the call of the shared routine.
- Xlogue.JinitCpyArgRes: stops before padding with nil, whose limit is read from outside the array (xlogue.c:370).
- Calls.EnterEnters: the entered code is the shared prologue and the room for locals in a row, the jump between the two being in `FrameRuns.PrologueRuns`; the copying and loading of parameters counts as part of the body.
- Xlogue.Precall: the call of the prologue is a word sequence given from outside, as are the calls of the copying routines in Xlogue.Postcall.
- FrameRuns.PrologueRuns: the closure, its prototype and the slot that points to it are not where the prologue pushes.
- Calls.LeaveLeaves: the call that closes upvalues before unwinding counts as part of the body; it and the final jump to ra are in `FrameRuns.EpilogueReturns`, for a machine whose return address is in a register.
- Calls.CallDiscipline: between entering and leaving, a body is any sequence of the effects of compiled code on stack and saved registers, not the code itself; its writes through open upvalues go to homes at or above their frame's sp, since one under it may be a word the callee saved (`CallSites.UpvalueOnSavedWord`).
- CallSites.CallGivesBack: the calls of the shared store and load routines are their effect, the sequences of `Saves.SaveStores` and `Saves.LoadRestores`; nothing in the call writes the caller's locals as upvalues.
- CallSites.CallDelivers: the copying call is its effect, `CopyRun.Copied`, and results lie below the called register; padding with nil is left out, as in Xlogue.JinitCpyArgRes.
- VarResults.ResultsFitIff: the copying call is its effect, `CopyRun.Copied`, on results that lie below the caller's sp.
- Coregisters.LoadCoregisters: the assertion that everything is in registers at once is the condition of `Coregisters.CoregLoads`.

What the repository does and the model does not:

- The frame, its constants and the prototype are values; updates of the frame while constants load are not modelled.
- `LABEL_EC` branches, which nothing uses, and the final shrinking reallocation in `link`, whose result it ignores.
- Bit-level encodings beyond the sixteen-bit offset of a branch, alignment traps, caches, and the region test of absolute calls.
- Pointers are 32 bits wide: the offsets of a closure's prototype and of its code are constants.
- `mips_carg`, `mips_umod`, `mips_pow`, `syn_max`, `syn_memcpyw`, `syn_memsetw`: partial or unused.
- `lcf_pro`, `jinit_pro`'s choice between Lua closures and C functions, and `jinit_bootstrap`.
- File loading, header checks, ELF dumping and memory mapping: input, output and the operating system.
- Metamethods, errors, string coercion, tables and the C API: calls into code outside the core.
- Keeping captured locals in step between registers and stack: the compiler does not do it; upvalues are modelled over stack slots.
