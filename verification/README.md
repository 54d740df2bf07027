# SuperPSX in Dafny

SuperPSX is a PlayStation emulator for MIPS consoles. It recompiles R3000A code to native MIPS
code block by block, emulates the geometry coprocessor exactly and in a faster inlined form,
re-encodes compressed video for a hardware MPEG-2 decoder, and decodes the graphics command
stream. This project models its most intricate parts and proves what each of them is for.

- **Recompiler** (`Arithmetic`, `Numbers`, `Mips`, `Psx`, `Native`, `Tracking`, `Emitter`, `Instructions`, `BlockScan`, `Slots`,
  `Interpreter`, `Exits`, `Branches`, `Plan`, `Compile`, `SuperBlock`, `Handover`, `Constants`, `Cases`): PSX and
  native words are one datatype with two step functions, the interpreter's and the native processor's with its
  delay slots. The emitter is a class that appends words and keeps the register tables. A ghost machine runs along
  with the emission; it starts from an arbitrary machine at home in an arbitrary interpreter state, so that each
  contract speaks of every run of the emitted code. `Plan` states what the compiler decides as functions of the
  words alone. The theorem is `SuperBlock.CompileBlock`; `Handover` says what follows from it. `MipsLaws`,
  `ControlLaws` and `BlockLaws` state the instructions, the branches and the scan by integers and fields.
- **Dead code elimination** (`Dce`, `LoadLaws`): the same scan, against an interpreter with memory, coprocessors as
  abstract devices, the load delay and cancelled loads.
- **Code caches** (`JumpTable`, `PageTable`, `DirectLinks`, `BlockCache`): each cache beside the simple map it
  speeds up, and all of them together under compiling, linking, invalidating and flushing.
- **Geometry coprocessor** (`GteDivide`, `Gte`, `GteLaws`, `GteUnit`, `GteInline`): the commands as functions on
  register files, what each of them computes, the imperative unit that updates them in place, the division's
  error bound, and the inlined sequences.
- **Video** (`Mpeg`, `MpegLaws`, `Idct`, `IdctLaws`): bit writer, prefix codes and DC prediction undone by a decoder written from
  ISO/IEC 13818-2, sections 7.2.1 and 7.2.2.3 and Tables B.12 to B.16; and the sparse inverse DCT, with its distance from the cosine transform.
- **Graphics** (`Gp0`, `Gp0Laws`, `VramCopy`, `OrderingTable`): command framing under every way of cutting the stream,
  the VRAM copy under every overlap, and the linked lists that DMA builds and follows.
- **Devices** (`Scheduler`, `MemoryCard`, `MemoryCardLaws`): the event queue's cached minimum and the memory card's protocol.

Definitions that an implementation and its specification share are pinned by laws that do not name them: the
modules whose names end in `Laws`, and the members of that ending elsewhere.

`dafny verify dfyconfig.toml` checks the whole project.

## Where the code differs from what it says

Each of these is stated for all inputs by the member named, and exactly unless the entry says otherwise.

- The T8 and T9 scratch caches go stale after a write to `$0` (src/dynarec_emit.c:438, src/dynarec_emit.c:494)
  and after `mark_vreg_const_lazy` (src/dynarec_emit.c:729): `Tracking.ZeroWriteIsTruthful`,
  `Tracking.ConstThroughT8IsTruthful`. `Cases.StaleScratchExample` is a block that computes a wrong value for it.
  `SuperBlock.CompileBlock` holds for every block in which no word reads a stale copy, which is a predicate of the
  words and the slots (`Plan.Reuses`); `Plan.HomedNeverReuses` and `Handover.FewRegisters` give simple cases. That
  condition is sufficient only: a stale copy may hold the right value by chance, or its value may not matter.
- Dead ADD, SUB and ADDI are dropped (src/dynarec_compile.c:611), which hides their exceptions:
  `Dce.EliminationIsExact`.
- A super-block cut at its length limit (src/dynarec_compile.c:1886) leaves in the middle of a scanned
  sub-block, so a register whose last write was dead only because of words beyond the cut is not handed over:
  `Cases.CutExample`. `Handover.HandOverIsExact` says exactly which registers are, `Handover.HarmlessCut` when all
  are, and `Handover.CutHeals` that the words beyond the cut write the others before they read them.
- In DMA blocks command 1Fh raises no interrupt (src/gpu_commands.c:1098) and leaves bit 24 of GPUSTAT down:
  `Gp0.InterruptsMatter`.
- A coefficient that dequantizes to zero is dropped together with its run (src/mdec_ipu.c:313), which moves
  the ones after it: `Mpeg.DroppedZeroMoves`.
- The inlined AVSZ3 and AVSZ4 saturate a wrapped product: `GteInline.OtzIsExact`.
- The reciprocal table is documented with min(0, ...) (src/gte.c:63); it holds the maximum: `GteDivide.TableFollows`.
- The VRAM copy is described as pixel-by-pixel for every overlap (src/gpu_commands.c:576); only its wrapping
  path is, and there an overlap ahead in copying order smears: `VramCopy.CommandIsExact`.
- The shortcut for blocks of one coefficient tests a position that has always moved (src/mdec.c:351):
  `Idct.DecodeBlock`.
- The memory card's write-error flag is never cleared (src/memorycard.c:457): `MemoryCard.WriteSession`,
  `MemoryCard.NeverGoodAgain`.
- Ordering tables longer than RAM lap themselves, and lists of more than 20000 packets are reported as
  stalled: `OrderingTable.TableWalks`, `OrderingTable.OnlyTheTable`.

## Model

| member | source | states |
|---|---|---|
| SuperBlock.CompileBlock | src/dynarec_compile.c:1087-1905 | the compiler's correctness: from every machine that holds an interpreter state at home, the emitted words leave through an exit, at the end of the block or by a branch taken before it, where the interpreter has executed the same words, its next PC is stored, exactly its cycles are charged and the registers are those of the run that skips dead words (`Handover` says when they are the interpreter's); or the interpreter stops with an exception among these words. It holds unless a word reads a stale scratch register. That, the slots, the length of the block and whether it is compiled at all are decided by the words, as `Plan` states them |
| Handover.HandOverIsExact | src/dynarec_compile.c:881-936 | an exit holds the interpreter's value of any set of known registers exactly if skipping the dead words made no difference to it |
| Handover.LiveHandOver | src/dynarec_compile.c:881-936 | every exit holds the interpreter's value of every register that liveness leaves to later code |
| Handover.FullHandOver | src/dynarec_compile.c:1180-1476 | the exits of a block below the length limit hold the interpreter's value of all registers |
| Handover.HarmlessCut | src/dynarec_compile.c:1886-1895 | where the length limit cuts a sub-block skipping dead words has made no difference, and the exit holds all registers, if no word before the cut was dead only because of words after it and no pending constant was dropped |
| Handover.CutHeals | src/dynarec_compile.c:1886-1895 | a register the cut loses is written again before it is read: whatever it holds, the rest of the sub-block leads the interpreter to its own state, unless a word stops it |
| Cases.CutExample | src/dynarec_compile.c:1886-1895 | a 200-word block, compiled as a whole: its code leaves at the cut with the interpreter's PC and an old value in `$8` |
| Handover.ExitIsEntry | src/dynarec_compile.c:881-936 | where a block leaves, the next block may be entered: registers at home, no branch pending, PC stored; a direct link is taken only to the interpreter's own next PC and only with cycles left, the abort only without |
| Handover.LinkedRun | src/dynarec_compile.c:881-936 | however many blocks run one after the other, the interpreter has executed their instructions in one go, and both cycle counts add up |
| Handover.HomeByRank | src/dynarec_emit.c:94-137 | which registers have a home is decided by the first sub-block: `$0`, the pinned ones, and those it names twice with fewer than eight ahead of them |
| Handover.FewRegisters | src/dynarec_emit.c:94-137 | a block that gets by with eight registers, each named twice in its first sub-block, never reads a stale scratch register |
| Plan.HomedNeverReuses | src/dynarec_emit.c:436-524 | nor does any other block whose registers all have homes |
| Cases.StaleScratchExample | src/dynarec_emit.c:492-524 | a ten-word block whose first two words, compiled as the compiler begins it, put 2 into `$17` where the interpreter puts 1 |
| Plan.OneOutcome | src/dynarec_compile.c:1169-1895 | words and slots leave one outcome: one length at which the block is complete, or one word that refuses it |
| Plan.ThinFollows | src/dynarec_compile.c:798-819 | the run that skips dead words has the interpreter's registers wherever liveness asks for them, across sub-blocks |
| Plan.LiveIsKnown | src/dynarec_compile.c:1856-1872 | a constant dropped with a dead word is never a live register's |
| Plan.LiveStep | src/dynarec_compile.c:798-819 | liveness fits together at every word: what is live before it covers what it reads and what is live after it, also where one sub-block follows another |
| Plan.KnownCovers | src/dynarec_compile.c:1856-1880 | what is known before a word suffices to translate it |
| Constants.WalkHolds | src/dynarec_emit.c:715-793 | from entry on every constant in the register tables is the value of its register |
| Constants.OverflowStops | src/dynarec_insn.c:480-495 | where an ADD, SUB or ADDI is declined because its constants overflow, every run that comes to it stops there |
| SuperBlock.Compiler.constructor | src/dynarec_compile.c:1132-1165 | the empty compiler state agrees with the interpreter at the entry |
| SuperBlock.Compiler.Step | src/dynarec_compile.c:1169-1895 | one word of the compile loop keeps the agreement with the interpreter and with the plan, or the block is left where the plan ends it, or the word is the first one declined |
| SuperBlock.Compiler.One | src/dynarec_compile.c:1790-1883 | an instruction, dead or not, moves the compiled run exactly as the interpreter moves |
| SuperBlock.Compiler.AtBranch | src/dynarec_compile.c:1538-1789 | after a branch word the condition, the target or the jump register is kept aside as it was before the delay slot |
| SuperBlock.Compiler.DelaySlot | src/dynarec_compile.c:1180-1405 | after the delay slot the interpreter is at the destination the saved condition picks, although the slot may have changed the registers compared |
| SuperBlock.Compiler.LeaveTo | src/dynarec_compile.c:881-936 | the path compiled last leaves faithfully to a known target |
| SuperBlock.Compiler.LeaveThrough | src/dynarec_compile.c:1480-1533 | a register jump leaves faithfully to the register's value from before the delay slot |
| SuperBlock.Compiler.BranchAway | src/dynarec_compile.c:1419-1432 | the deferred branch takes away exactly the runs whose saved condition holds, with the tables saved for them |
| SuperBlock.Compiler.TakenExit | src/dynarec_compile.c:149-195 | a deferred taken path, compiled from the tables saved at the branch, leaves faithfully, and patching its branch disturbs no other run |
| SuperBlock.Compiler.DeferredExits | src/dynarec_compile.c:149-195 | after all deferred exits are compiled every run that left the main path has been caught |
| SuperBlock.Compiler.LastBranch | src/dynarec_compile.c:1454-1472 | without room for another continuation both paths of a branch leave faithfully |
| SuperBlock.Compiler.Continue | src/dynarec_compile.c:1434-1452 | the fall-through path goes on with a sub-block of its own and all registers live |
| SuperBlock.Compiler.Run | src/dynarec_compile.c:1169-1905 | the compile loop ends with every run accounted for |
| Compile.Skip | src/dynarec_compile.c:1856-1872 | a dead instruction may be skipped: the tables still agree on every known register but one whose pending constant goes with it |
| Compile.LandedRuns | src/dynarec_compile.c:150-195 | a run that comes to a landing place by falling through or by one patched branch leaves the whole code as from there |
| Compile.RunExtends | src/dynarec_compile.c:150-195 | appending code and patching open branches later on do not change a run that has left before |
| Compile.LandedKeeps | src/dynarec_compile.c:150-195 | compiling further exits does not change where a run has landed |
| Branches.EmitConditional | src/dynarec_compile.c:1610-1789 | the condition word kept in the frame is nonzero exactly when the interpreter would branch |
| Branches.EmitFolded | src/dynarec_compile.c:1538-1789 | a branch on known constants is replaced by the jump or the fall-through the interpreter takes |
| Branches.EmitRegisterJump | src/dynarec_compile.c:1569-1592 | the target stored is the register's old value, even when the link overwrites that register |
| Branches.Link | src/dynarec_compile.c:1543-1550 | the return address is written as the interpreter writes it |
| Branches.CondWordDecides | src/dynarec_compile.c:1610-1789 | for all six conditions the comparison words compute zero or nonzero as the condition demands |
| Exits.Flush | src/dynarec_emit.c:180-190 | after flushing constants and dirty slots every live register is at home |
| Exits.FlushConsts | src/dynarec_emit.c:532-565 | no constant stays deferred, and no value changes |
| Exits.FlushSlots | src/dynarec_emit.c:180-190 | every dirty slot is stored and marked clean |
| Exits.LoadSlots | src/dynarec_emit.c:142-156 | loading all slots but those written before being read agrees with the interpreter, and these are the ones loaded |
| Exits.EntryAgrees | src/dynarec_emit.c:94-156 | registers at home agree with empty tables |
| Exits.BranchEpilogue | src/dynarec_compile.c:881-936 | the epilogue hands over the interpreter's state with the PC stored and the block's cycles charged |
| Exits.RegisterExit | src/dynarec_compile.c:1480-1533 | the same for a jump through a register, guessed inline or dispatched |
| Exits.ChargeWordCharges | src/dynarec_compile.c:881-936 | the one-word charge subtracts exactly the cycles |
| Exits.LeaveRuns | src/dynarec_compile.c:881-936 | the exit words go to the link while cycles are left and to the abort otherwise |
| Exits.GuessRuns | src/dynarec_compile.c:1488-1527 | a guessed register jump that was right goes straight to its block |
| Interpreter.ChainJoins | src/interpreter.c:132-468 | running n and then k instructions is running n + k |
| ControlLaws.BranchThenSlot | src/interpreter.c:222-447 | a branch and its delay slot, from any state: the slot sees the return address, the word after the slot, in the link register, and execution goes on at the target or after the slot |
| ControlLaws.BranchLaw | src/interpreter.c:265-303 | the six conditions as comparisons of signed numbers; BLTZ and BGEZ and their undocumented forms go by the lowest bit of the field |
| ControlLaws.TargetLaw | src/interpreter.c:222-303 | where branches, jumps and register jumps go, the region of J by its bits |
| ControlLaws.LinkLaw | src/interpreter.c:265-299 | which register receives the return address |
| MipsLaws.DivLaw | src/memory.c:522-541 | for all operands LO and HI of DIV are a quotient and a remainder: q * b + r = a, the remainder is nearer to 0 than the divisor and has the sign of the dividend; with 1, -1 and the dividend for a zero divisor, and -2^31 over -1 |
| MipsLaws.DivuLaw | src/memory.c:543-556 | the same for DIVU, unsigned |
| MipsLaws.DivisionIsUnique | src/memory.c:522-541 | only one pair of numbers is such a quotient and remainder |
| MipsLaws.MultLaw | src/interpreter.c:235-240 | HI and LO of MULT together are the product of the signed numbers |
| MipsLaws.MultuLaw | src/interpreter.c:241-246 | those of MULTU the product of the unsigned numbers |
| MipsLaws.MoveLaw | src/interpreter.c:231-234 | MFHI, MTHI, MFLO and MTLO |
| MipsLaws.SumLaw | src/interpreter.c:249-252 | ADD, ADDU, SUB and SUBU: the sum or difference of signed numbers modulo 2^32 in rd alone; ADD and SUB raise an exception exactly when it does not fit |
| MipsLaws.AddiLaw | src/interpreter.c:304-305 | the same for ADDI and ADDIU |
| MipsLaws.TrapLaw | src/interpreter.c:213-312 | no other instruction of the fragment raises an exception |
| MipsLaws.SignExtIs | src/interpreter.c:205-208 | sixteen digits and above them copies of the highest |
| MipsLaws.CompareLaw | src/interpreter.c:257-307 | SLT and SLTI compare signed numbers, SLTU and SLTIU unsigned ones |
| MipsLaws.LogicLaw | src/interpreter.c:253-311 | AND, OR, XOR, NOR and their immediate forms, digit by digit |
| MipsLaws.ShiftLaw | src/interpreter.c:216-221 | shifts by a field or by the low five bits of a register; arithmetic ones fill with the sign |
| Instructions.EmitInstruction | src/dynarec_insn.c:258-965 | the words emitted for one register instruction lead to the interpreter's state unless a stale scratch register was read, and the register tables become what a function of the tables and the word says |
| Instructions.EmitShift | src/dynarec_insn.c:279-320 | shifts by a constant, folded or emitted; between registers without homes the words do exactly what is stated, stale operand or not |
| Instructions.EmitShiftVar | src/dynarec_insn.c:321-353 | shifts by a register |
| Instructions.EmitMoveHiLo | src/dynarec_insn.c:364-377 | moves to and from HI and LO |
| Instructions.EmitMult | src/dynarec_insn.c:378-419 | both halves of the product, as `MipsLaws.MultLaw` states it, signed and unsigned, through either multiply pipeline |
| Instructions.EmitDiv | src/dynarec_insn.c:420-479 | HI and LO as in the interpreter, which `MipsLaws.DivLaw` states by integers, a zero divisor included, without a branch |
| Instructions.EmitAddSub | src/dynarec_insn.c:480-545 | ADD and SUB do as the interpreter when it does not trap; a block is turned down exactly when known constants overflow |
| Instructions.EmitAddi | src/dynarec_insn.c:792-860 | the same for ADDI |
| Instructions.EmitAlu3 | src/dynarec_insn.c:546-791 | three-register operations, folded or emitted |
| Instructions.EmitAluImm | src/dynarec_insn.c:861-960 | immediate operations |
| Instructions.EmitLui | src/dynarec_insn.c:961-965 | LUI becomes a known constant |
| Instructions.OverflowBit | src/dynarec_insn.c:480-545 | the sign of the word the cold-path test computes is set exactly when the sum or difference overflows |
| Instructions.AddChecked | src/dynarec_insn.c:480-545 | the checked addition computes the wrapped result and branches away exactly on overflow |
| Emission.Emitter.UseReg | src/dynarec_emit.c:368-434 | the register returned holds the PSX register's value |
| Emission.Emitter.LoadPsxReg | src/dynarec_emit.c:289-366 | the chosen native register comes to hold the PSX register's value |
| Emission.Emitter.SyncReg | src/dynarec_emit.c:492-524 | after the destination is synced the tables agree with the interpreter's write |
| Emission.Emitter.MarkVar | src/dynarec_emit.c:751-793 | a deferred constant is not lost when its register becomes variable |
| Emission.Emitter.MarkConstLazy | src/dynarec_emit.c:729-749 | deferring a constant agrees with writing it now |
| Emission.Emitter.Materialize | src/dynarec_emit.c:368-434 | a deferred constant is written home |
| Emission.Emitter.FieldToPsxReg | src/dynarec_emit.c:829-851 | HI and LO come to the register asked for |
| Emission.Emitter.LoadImm32 | src/dynarec_emit.c:689-713 | each of the four immediate sequences loads the value, and only one register changes |
| Tracking.ZeroWriteIsTruthful | src/dynarec_emit.c:436-449 | a write to `$0` leaves the T8 cache right exactly when the value computed is the cached one |
| Tracking.ConstThroughT8IsTruthful | src/dynarec_emit.c:729-749 | materializing a constant through T8 leaves the T9 cache right exactly when T9 already had that value |
| Tracking.MadeLazy | src/dynarec_emit.c:729-749 | deferring a constant keeps the tables in agreement |
| Tracking.HomeWritten | src/dynarec_emit.c:492-524 | writing a register's home keeps the tables in agreement |
| Tracking.ResultSynced | src/dynarec_emit.c:492-524 | a result reaches its register in each of the three ways, one for `$0` marking what T8 caches as stale |
| Tracking.MaterializedPlain | src/dynarec_emit.c:368-434 | a constant stored through a scratch register leaves the tables right, with a copy cached elsewhere marked as stale |
| Tracking.LazyForgotten | src/dynarec_compile.c:1856-1872 | giving up a pending constant keeps the tables right for all other registers |
| Slots.Assign | src/dynarec_emit.c:94-137 | the eight slots go to the best-scoring registers, one each, ties to the lower number |
| Slots.FindBest | src/dynarec_emit.c:94-137 | the register found beats every candidate left, or none is left |
| Slots.SlotByRank | src/dynarec_emit.c:94-137 | a register has a slot exactly when it is used twice and fewer than eight are served before it, and their number is its slot |
| Slots.AssignmentIsUnique | src/dynarec_emit.c:94-137 | so the use counts determine the slots |
| BlockLaws.SlotLaw | src/dynarec_emit.c:94-137 | a register with a slot is used twice and no less than one without, ties going to the lower number; `$0` and the pinned registers have none |
| Slots.SlotMap.HomesValid | src/dynarec_emit.c:94-137 | pinned registers and slots give every homed register a native register of its own |
| BlockScan.Run | src/dynarec_compile.c:704-820 | block boundary, dead set, read and written masks, write-before-read set and use counts are what the block's words determine |
| BlockScan.Boundary | src/dynarec_compile.c:704-723 | the block ends at a trap, after a delay slot or at the limit |
| BlockScan.Usage | src/dynarec_compile.c:725-797 | masks and counts equal their definitions over the block |
| BlockScan.Liveness | src/dynarec_compile.c:798-819 | the backward pass finds exactly the dead words |
| BlockLaws.DeadLaw | src/dynarec_compile.c:798-819 | a word is dead exactly if all it does is to write a register that the words left in the block overwrite before they read it |
| BlockLaws.WritesLaw | src/dynarec_compile.c:623-703 | the registers marked as written are those the interpreter writes |
| BlockLaws.DestLaw | src/dynarec_compile.c:441-477 | the destination that ends liveness is the register written, but for loads and coprocessor reads |
| BlockLaws.ReadsLaw | src/dynarec_compile.c:478-600 | the registers marked as read, for computing words those they are compiled to read, for all others by their fields |
| BlockLaws.PureLaw | src/dynarec_compile.c:601-618 | the words that may be dropped are those computing one register |
| BlockLaws.FragmentLaw | src/dynarec_compile.c:704-723 | which words have a delay slot, which trap, and which the recompiler model covers |
| BlockLaws.EndLaw | src/dynarec_compile.c:1405-1895 | a compiled block ends after the delay slot of a jump, of a branch decided while compiling or of its fourth branch, after 64 words without a branch, or with its 200th word, never with a branch |
| BlockLaws.CounterLaw | src/dynarec_compile.c:881-936 | an exit takes the interpreter's cycles off the counter in `$18`, and goes on to the next block exactly while the counter, as a signed number, is positive |
| Dce.EliminationIsExact | src/dynarec_compile.c:798-819 | with loads, stores, coprocessors, the load delay and its cancellation: dropping the dead words of a block changes nothing about a run exactly when the run does not trap at a dead word |
| Dce.Simulation | src/dynarec_compile.c:798-819 | the thinned run matches the original from every related pair of states at every word |
| Dce.DeadAddHidesOverflow | src/dynarec_compile.c:601-618 | a dead ADD that overflows: dropping it hides the exception |
| Dce.ExecuteAligns | src/interpreter.c:213-425 | a live instruction keeps states alike on the live registers |
| Dce.CommitAligns | src/interpreter.c:187-200 | committing delayed loads keeps them alike |
| Dce.LiveAligns | src/interpreter.c:187-435 | a whole step at a live word keeps states related |
| Dce.DeadAligns | src/interpreter.c:187-435 | a whole step at a dead word, against none, keeps states related |
| LoadLaws.LoadLaw | src/interpreter.c:350-385 | a load changes no register yet; the loaded value is on its way; unaligned addresses trap |
| LoadLaws.LoadDelay | src/interpreter.c:187-200 | the instruction after a load still finds the old value, and then the loaded one is there, unless that instruction wrote the register |
| LoadLaws.LoadAfterLoad | src/interpreter.c:187-385 | of two loads to one register the first never arrives, but LWL and LWR merge into what it loaded |
| LoadLaws.LoadsApart | src/interpreter.c:187-385 | with two loads to different registers the first arrives in between |
| LoadLaws.StoreLaw | src/interpreter.c:386-400 | stores send the register to the address or trap |
| LoadLaws.MoveLaw | src/interpreter.c:312-348 | COP0 and COP2 moves: MFC0 is late like a load, MFC2 and CFC2 are not |
| LoadLaws.TransferLaw | src/interpreter.c:405-421 | LWC2 and SWC2 move a word between memory and the coprocessor, or trap |
| LoadLaws.ChangeCancels | src/interpreter.c:429-435 | whatever other instruction changes a register cancels a load to it, but BLTZAL and BGEZAL |
| LoadLaws.RunLaw | src/interpreter.c:132-468 | on words without loads this interpreter and the one with branches, stated apart, leave the same registers and go to the same place |
| JumpTable.Table.Add | src/dynarec.h:249-273 | the address is answered with what was added; of all other answers only that of the row's older address is lost |
| JumpTable.Table.Remove | src/dynarec.h:276-292 | the address is answered no more and every other answer stays |
| JumpTable.Table.Clear | src/dynarec_run.c:992-1004 | nothing is answered |
| BlockLaws.HashLaw | src/dynarec.h:228-247 | two words of one page never share a row of the jump table, nor do words at one place of two pages within 16 MB |
| PageTable.Pages.CacheBlock | src/dynarec_cache.c:187-244 | the two-level table stays equal to a map from code words to blocks, with one entry set; it fails exactly for uncached addresses, a page that cannot be had or a full pool |
| PageTable.Pages.Free | src/dynarec_cache.c:246-265 | the table equals the empty map |
| PageTable.SamePlace | src/dynarec.h:657-690 | two addresses share a table entry exactly when they mean the same word, in whatever segment |
| BlockLaws.CachedLaw | src/dynarec.h:657-690 | code is cached for the 2 MB of RAM and the 512 KB of BIOS in every segment, by word |
| DirectLinks.Links.ApplyPending | src/dynarec_cache.c:132-152 | every site waiting for the block is redirected to its entry, no other code word changes, and the other sites stay pending in order while being moved up in place |
| DirectLinks.Links.EmitLink | src/dynarec_cache.c:105-129 | a link goes to the block or out, and in the latter case is noted while there is room |
| DirectLinks.JumpLands | src/dynarec.h:153-154 | a jump word read at its site lands on the word it was made for, as the buffer lies in one region |
| BlockLaws.LinkLaw | src/dynarec_cache.c:105-129 | a link is the J instruction to the exit trampoline, or past the 22 words with which a block begins, within the 256 MB of its delay slot |
| DirectLinks.KeptIsTheRest | src/dynarec_cache.c:132-152 | compaction drops exactly the sites of the target |
| DirectLinks.KeptAscends | src/dynarec_cache.c:132-152 | compaction keeps the sites in code order, so none is noted twice |
| BlockCache.Caches.EnsureBlock | src/dynarec_run.c:872-926 | an address with code gets that code; any other is compiled, after which the jump table leads to it and no link waits for it; what is returned is the page table's entry and was compiled for the same place since the last flush |
| BlockCache.Caches.HitIsLookup | src/dynarec_run.c:874-887 | a micro-cache hit is exactly the page-table entry |
| BlockCache.Caches.JumpIsRight | src/dynarec.h:249-292 | whatever the jump table answers is the entry of a block compiled for the place jumped to since the last flush |
| BlockCache.Caches.LinkIsRight | src/dynarec_cache.c:80-152 | every link word lands on the exit trampoline or on the entry of a block for its own target |
| BlockCache.Caches.EmitLink | src/dynarec_cache.c:80-129 | linking, with the invalidation of a stale target, keeps all of this |
| BlockCache.Caches.Compile | src/dynarec_compile.c:1087-1132 | compiling, with the flush of a full buffer, keeps all of this and yields a block for the place |
| BlockCache.Caches.Invalidate | src/dynarec_run.c:1005-1031 | an invalidated block loses its code and its address its jump-table answer; all of this is kept |
| BlockCache.Caches.FlushAll | src/dynarec_compile.c:1100-1130 | a flush forgets every block everywhere at once |
| BlockCache.Caches.FlushTable | src/dynarec_run.c:992-1004 | emptying jump table and micro-cache keeps all of this |
| GteDivide.TableFollows | src/gte.c:62-83 | all 257 table entries follow the formula max(0, (40000h / (i + 100h) + 1) / 2 - 101h) |
| GteDivide.FirstIsClose | src/gte.c:491-517 | the table estimate is within a known error of the reciprocal |
| GteDivide.SecondIsClose | src/gte.c:491-517 | so is the estimate after the Newton step |
| GteDivide.RoundedIsClose | src/gte.c:491-517 | so is the rounded quotient |
| GteDivide.DividedIsClose | src/gte.c:491-517 | for all h < 2 * sz3 the result is at most 1FFFFh and within 4.5 of h * 10000h / sz3 or of the cap |
| GteDivide.Divide | src/gte.c:491-517 | the method computes that quotient, reports overflow exactly when h >= 2 * sz3, and no 32-bit step wraps |
| Gte.AccumulateTracks | src/gte.c:190-204 | after each addition the 44-bit accumulator is congruent to the exact sum modulo 2^44, and equal to it while no flag was raised |
| Gte.RowIsExact | src/gte.c:573-689 | the 64-bit sum of a row never overflows; without a flag the wrapped result is the exact sum |
| Gte.DepthIsExact | src/gte.c:694-760 | without a flag the depth pushed is the clamped exact sum shifted by 12 |
| Gte.MatrixRowIsExact | src/gte.c:573-689 | the same for MVMVA rows of every matrix, vector and translation choice |
| Gte.PerformMidway | src/gte.c:1321-1408 | every command keeps IR, SZ and OTZ in range and FLAG within its bits |
| Gte.ApplyKeepsRanges | src/gte.c:1227-1408 | every register write and command keeps the ranges and FLAG bit 31 the OR of the error bits |
| Gte.RangesAlways | src/gte.c:1227-1408 | so does every run of them from reset |
| GteUnit.Unit.Execute | src/gte.c:1321-1408 | the imperative unit does to its registers exactly what the command function says, for every command word; what that is the `GteLaws` state command by command |
| GteUnit.Unit.Mvmva | src/gte.c:573-689 | the three channels in order, with the hardware's far-colour quirk |
| GteUnit.Unit.RtpsCore | src/gte.c:694-782 | rotation, depth, projection and depth cue in order; `GteLaws.RtpsLaw` says where the vertex lands |
| GteUnit.Unit.Interpolate | src/gte.c:553-564 | interpolation towards the far colour |
| GteUnit.Unit.StoreMacIr | src/gte.c:458-564 | MAC and IR stores with their saturations and flags |
| GteLaws.RtpsLaw | src/gte.c:694-788 | RTPS, when it leaves FLAG empty: MAC1 to MAC3 are the rotated and translated V0, SZ3 its depth, IR1 and IR2 are MAC1 and MAC2, and the low half of SXY2 is where a quotient within 4.5 / 65536 of H / SZ3 takes IR1 from OFX, the high half where it takes IR2 from OFY; MAC0 is DQA times the quotient plus DQB and IR0 a 4096th of it; all three FIFOs move up and nothing else changes |
| GteLaws.RtptLaw | src/gte.c:694-798 | the same for RTPT and V0, V1, V2, whose depths and places fill the FIFOs in this order |
| GteLaws.LandsClose | src/gte.c:766-772 | such a place is within 2.25 pixels above and 3.25 below OFX / 65536 + IR1 * H / SZ3, and OFY / 65536 + IR2 * H / SZ3 |
| GteLaws.ProjectStage | src/gte.c:756-782 | the perspective part for all states, the flags included |
| GteLaws.BitsAre | src/gte.c:756-772 | its flags: 17 for a quotient of 2 and above, 16 and 15 for a position outside 32 bits |
| GteLaws.RotatedStage | src/gte.c:694-755 | the rotation for all states: the limits of IR1 to IR3 and their flags, that of IR3 by a 4096th of the sum |
| GteLaws.QuotientLaw | src/gte.c:491-517 | the quotient is within 4.5 of the exact one while that is below 2, and 1FFFFh otherwise |
| GteLaws.CueStage | src/gte.c:773-782 | the depth cue for all states: MAC0 modulo 2^32, IR0 limited to 0 and 1000h, flags 16, 15 and 12 |
| GteLaws.MvmvaLaw | src/gte.c:573-689 | MVMVA, when it leaves FLAG empty, for every matrix, vector and translation but the far colour: the exact row sums by the registers' halves |
| GteLaws.FarMvmvaLaw | src/gte.c:573-689 | with the far colour, sums of the last two products of each row |
| GteLaws.MvmvaStage | src/gte.c:573-689 | for all states, a store of the sums with the flags of the channels |
| GteLaws.FarStage | src/gte.c:573-689 | the flags that the products left out raise |
| GteLaws.ChannelLaw | src/gte.c:190-204 | a channel raises a flag exactly when the exact sum leaves 44 bits after one of its products, and the first time says which |
| GteLaws.StoreLaw | src/gte.c:458-564 | MAC1 to MAC3 are the sums modulo 2^32, IR1 to IR3 their limits, and no other register changes |
| GteLaws.StoreFlags | src/gte.c:190-245 | flags 30 to 22, each with its exact condition |
| GteLaws.ColorLaw | src/gte.c:309-551 | the colour FIFO moves up; the new colour is MAC1 to MAC3 / 16 limited to bytes below the code, with flags 21 to 19 |
| GteLaws.DepthLaw | src/gte.c:293-537 | the depth FIFO moves up; flag 18 |
| GteLaws.ScreenLaw | src/gte.c:262-529 | the screen FIFO moves up; flags 14 and 13 |
| GteLaws.ProductLaw | src/gte.c:834-878 | OP is the cross product with the rotation matrix's diagonal, SQR squares IR1 to IR3 |
| GteLaws.GeneralLaw | src/gte.c:1123-1168 | GPF and GPL: IR0 times IR1 to IR3, onto MAC1 to MAC3 for GPL, and the colour of the result |
| GteLaws.Mac0Law | src/gte.c:799-832 | NCLIP is the area of the screen triangle, AVSZ3 and AVSZ4 the scaled sum of the depths with OTZ a 4096th |
| GteLaws.Mac0Stage | src/gte.c:207-832 | MAC0 and OTZ for all values, with flags 18, 16 and 15 |
| GteLaws.ShadeLaw | src/gte.c:915-995 | NCS, NCCS and NCDS, when FLAG stays empty: the normal times the light matrix, that times the colour matrix onto the back colour, then RGBC and the far colour as the command says |
| GteLaws.ShadeThreeLaw | src/gte.c:915-1004 | NCT, NCCT and NCDT: the same for three normals, whose colours fill the FIFO in order |
| GteLaws.ColorColorLaw | src/gte.c:1006-1042 | CC and CDP: the same from IR1 to IR3 as the light |
| GteLaws.CueLaw | src/gte.c:1044-1121 | DPCS, INTPL and DCPL: the source colour goes toward the far colour by IR0 / 4096 |
| GteLaws.CueThreeLaw | src/gte.c:1068-1091 | DPCT takes the three colours of the FIFO, the oldest first |
| GteLaws.InterpolateStage | src/gte.c:880-913 | going toward the far colour for all states, the distance limited on the way, with its flags |
| GteLaws.IrgbLaw | src/gte.c:1227-1270 | writing IRGB sets IR1 to IR3 from five bits each, the lowest first |
| GteLaws.LzcrLaw | src/gte.c:1171-1194 | LZCR is the number of shifts that bring the first bit unlike the sign to the top, 32 if there is none |
| GteLaws.WriteLaw | src/gte.c:1227-1270 | the other data registers: which keep 16 bits and which move the screen FIFO |
| GteLaws.ControlLaw | src/gte.c:1284-1317 | the control registers, and FLAG with bit 31 the sum of its error bits |
| GteInline.InlineOp | src/dynarec_gte.c:1186-1283 | the inlined OP leaves the same data registers as the exact command |
| GteInline.InlineSqr | src/dynarec_gte.c:1573-1632 | so does SQR |
| GteInline.InlineGpf | src/dynarec_gte.c:1854-1963 | so does GPF, colour FIFO included |
| GteInline.InlineGpl | src/dynarec_gte.c:1964-2102 | so does GPL |
| GteInline.InlineNclip | src/dynarec_gte.c:1142-1185 | so does NCLIP |
| GteInline.InlineAvsz3 | src/dynarec_gte.c:1718-1761 | the inlined AVSZ3 gives the exact MAC0 in every state, and the exact data registers if \|ZSF3\| is at most 10922 |
| GteInline.InlineAvsz4 | src/dynarec_gte.c:1762-1806 | so does AVSZ4, with \|ZSF4\| at most 8192 |
| GteInline.AverageAgrees | src/dynarec_gte.c:1718-1806 | the exact and the inlined averages, stated side by side, leave the same data registers for every scale factor up to the limit |
| GteInline.OtzIsExact | src/dynarec_gte.c:1718-1806 | with one scale factor they agree in all states exactly when it is at most 10922 (three depths) or 8192 (four) in absolute value |
| Mpeg.BitWriter.Put | src/mdec_ipu.c:71-86 | appends exactly the top bits of the code to the bit stream |
| Mpeg.BitWriter.Flush | src/mdec_ipu.c:88-94 | completes the last word with zero bits |
| Mpeg.SwapTwice | src/mdec_ipu.c:71-94 | the byte swap is its own inverse |
| Mpeg.SizeRoundTrip | src/mdec_ipu.c:96-155 | the size codes of Tables B.12 and B.13 of ISO/IEC 13818-2 are read back, whatever follows |
| Mpeg.DiffRoundTrip | src/mdec_ipu.c:134-155 | section 7.2.1: every DC difference is read back |
| Mpeg.EscapeRoundTrip | src/mdec_ipu.c:161-167 | section 7.2.2.3: every escape-coded coefficient is read back |
| Mpeg.AcRoundTrip | src/mdec_ipu.c:161-167 | every list of coefficients is read back, with its end of block |
| Mpeg.BlockRoundTrip | src/mdec_ipu.c:340-376 | every block is read back |
| Mpeg.MacroRoundTrip | src/mdec_ipu.c:323-376 | a decoder with its own DC predictors reads back all six blocks, halved DC and coefficient list; `MpegLaws.MacroblockIsReadBack` writes them out |
| MpegLaws.MacroblockIsReadBack | src/mdec_ipu.c:323-376 | the six blocks come as Y1, Y2, Y3, Y4, Cb, Cr, each with its own coefficients, and each DC value h has 2 * h <= dc + 1024 < 2 * h + 2, or without the 1024 when signed |
| MpegLaws.MacroblockBits | src/mdec_ipu.c:323-376 | the bits themselves: each DC difference to the block before of its component, from 512, then the coefficients |
| MpegLaws.BlockLayout | src/mdec_ipu.c:340-376 | a block is its difference, its coefficients in order, End of Block |
| MpegLaws.DifferenceBits | src/mdec_ipu.c:134-155 | a difference is its size code and its digits, the ones' complement for a negative one |
| MpegLaws.SizeCodesAre | src/mdec_ipu.c:96-130 | the size codes are those of Tables B.12 and B.13 of ISO/IEC 13818-2, spelled out |
| MpegLaws.EscapeLayout | src/mdec_ipu.c:161-167 | an escape is 000001, six bits of run, twelve of level in two's complement |
| MpegLaws.StreamLaw | src/mdec_ipu.c:71-94 | the bytes of the buffer, as a little-endian machine keeps them, are the stream, eight bits each |
| MpegLaws.PutLaw | src/mdec_ipu.c:71-86 | the bits put for a code are its highest ones |
| MpegLaws.ValFront | src/mdec_ipu.c:71-86 | a string of bits spells the number with its first bit highest |
| MpegLaws.CoefficientLaw | src/mdec_ipu.c:296-318 | before zeros are dropped, the i-th coefficient is level times the table's entry for its place times the scale plus 4, an eighth of it truncated, clipped to 11 bits |
| MpegLaws.CoefficientsEnd | src/mdec_ipu.c:296-318 | the list ends with FE00h, with the data, or before a coefficient outside the block |
| MpegLaws.HalfwordLaw | src/mdec_ipu.c:286-306 | six bits of run, ten of level in two's complement |
| Mpeg.DiffFits | src/mdec_ipu.c:346-366 | the clamp on DC differences never fires for clipped inputs |
| Mpeg.EncodeDc | src/mdec_ipu.c:134-155 | writes the bits of the DC difference |
| Mpeg.EncodeAcEscape | src/mdec_ipu.c:161-167 | writes the bits of the escape |
| Mpeg.EncodeMacroblock | src/mdec_ipu.c:323-376 | writes the macroblock's bits, which `MpegLaws.MacroblockBits` spells out, into at most 287 words |
| Mpeg.Terminate | src/mdec_ipu.c:378-398 | the bits of the end markers and the padding exactly, and with them at most 294 of the 1024 words |
| Mpeg.ParseAc | src/mdec_ipu.c:301-318 | run-length parsing keeps exactly the nonzero dequantized coefficients, at most 63, all within the clipping range |
| Mpeg.DroppedZeroMoves | src/mdec_ipu.c:301-318 | dropping coefficients that dequantize to zero, together with their runs, leaves all others in place exactly when no other follows one |
| Mpeg.DroppedZeroExample | src/mdec_ipu.c:301-318 | two run-length halfwords with levels 1 and 60: the first is dropped, and the second moves |
| Gp0.Decoder.ProcessBlocks | src/gpu_commands.c:1032-1149 | however a stream is cut into DMA blocks the decoder ends in the state of word-by-word feeding, with the same events and the same interrupt flag exactly when the flag was up already or no word taken as a command is 1Fh |
| Gp0.Decoder.ProcessDmaBlock | src/gpu_commands.c:1032-1149 | one block is fed as it would be word by word, without the interrupt; the flag stays as it is |
| Gp0.Decoder.Write | src/gpu_commands.c:360-840 | one word does to buffer, counters and events what the decoder function says; the command buffer is never overrun |
| Gp0.Decoder.Acknowledge | src/gpu_commands.c:901-906 | the acknowledging command takes the interrupt flag down and leaves the decoder as it is |
| Gp0.FeedAllJoins | src/gpu_commands.c:360-490 | feeding a then b is feeding a + b |
| Gp0.InterruptsMatter | src/gpu_commands.c:794-803 | the two decoders take the same states always; events and flag are the same exactly when the flag was up already or there is no 1Fh command; otherwise exactly one interrupt is missing and the flag is down |
| Gp0.FeedCommand | src/gpu_commands.c:360-490 | a whole command of its table size, fed word by word, is one event and leaves the decoder idle |
| Gp0.FeedImage | src/gpu_commands.c:360-490 | image data is collected until the last word, then reported at once |
| Gp0.FeedUpload | src/gpu_commands.c:360-490 | an upload command with its data is one event with all its words, as many as `Gp0Laws.UploadLaw` says |
| Gp0Laws.UploadLaw | src/gpu_commands.c:490-530 | an upload of w by h pixels, 0 standing for 1024 and 512, takes n data words with 2 * n - 2 < w * h <= 2 * n, no more and no less |
| Gp0Laws.DrawLaw | src/gpu_commands.c:22-318 | fills take 3 words, lines 3 or 4, and every polygon and rectangle the words its flag bits ask for |
| Gp0Laws.CopyLaw | src/gpu_commands.c:548-562 | a copy takes source, target and size in this order |
| Gp0Laws.ReadBackLaw | src/gpu_commands.c:525-547 | reading back takes place and size |
| Gp0Laws.SingleLaw | src/gpu_commands.c:794-840 | settings, the interrupt request and words without effect |
| Gp0Laws.EdgeLaw | src/gpu_commands.c:794-803 | of two interrupt requests in a row only the first is one, and none is while the flag is up |
| Gp0Laws.PolylineLaw | src/gpu_commands.c:371-480 | a polyline of any length, flat or shaded: its first two vertices are drawn at once, every further one is joined to the one before it with its own colour, and the end mark ends it |
| Gp0.PolygonSizeFollowsFlags | src/gpu_commands.c:39-318 | the command table's polygon sizes follow from the shading, vertex and texture bits |
| Gp0.RectangleSizeFollowsFlags | src/gpu_commands.c:39-318 | and the rectangle sizes from the size and texture bits |
| VramCopy.Shadow.Execute | src/gpu_commands.c:543-627 | the copy command, with its masks and zero sizes, gives the outcome stated by the next two rows; every `memcpy` is on disjoint runs |
| VramCopy.CommandIsExact | src/gpu_commands.c:577-627 | every destination pixel gets its source's old value and no other changes, on all images, exactly when neither rectangle crosses an edge or the pixel order does not read what it has written |
| VramCopy.ForwardIsExact | src/gpu_commands.c:614-626 | the pixel loops copy exactly, on all images, exactly when the displacement is not ahead in copying order within the rectangle's own size |
| VramCopy.DisjointIsExact | src/gpu_commands.c:614-626 | rectangles without a common pixel, wrapped or not, never smear |
| VramCopy.SmearExample | src/gpu_commands.c:614-626 | a two-pixel copy across the edge that smears |
| VramCopy.SafeCopies | src/gpu_commands.c:614-626 | steps that never read what an earlier one changed copy old values |
| VramCopy.DecodeLaw | src/gpu_commands.c:550-562 | the fields of the three parameter words: ten bits for columns, nine of the upper half for rows, 0 standing for 1024 and 512; other bits do not matter |
| VramCopy.CopiedLaw | src/gpu_commands.c:614-626 | the copy aimed at: each target pixel gets the pixel in the same row and column of the source rectangle, both wrapping at the edges |
| VramCopy.OutsideLaw | src/gpu_commands.c:614-626 | and no pixel outside the target rectangle changes |
| VramCopy.RowStep | src/gpu_commands.c:581-613 | moving one row extends the rows copied, in either order |
| VramCopy.Shadow.MoveRows | src/gpu_commands.c:584-593 | overlap along the same rows comes out right |
| VramCopy.Shadow.CopyUpwards | src/gpu_commands.c:594-603 | downward overlap comes out right from the last row up |
| VramCopy.Shadow.CopyDownwards | src/gpu_commands.c:604-613 | upward and no overlap come out right from the first row down |
| VramCopy.Shadow.CopyPixels | src/gpu_commands.c:614-626 | the pixel loops are the sequential copy |
| Scheduler.EventQueue.Schedule | include/scheduler.h:70-90 | the table gets the event; a right cache stays right, and one that is only a lower bound stays one |
| Scheduler.EventQueue.Cancel | include/scheduler.h:92-99 | the same for removal |
| Scheduler.EventQueue.Recompute | include/scheduler.h:53-68 | the rescan makes the cache right |
| Scheduler.EventQueue.Tick | include/scheduler.h:101-120 | a dispatch, with callbacks that add and remove events at will, leaves the table of the plain scheduler, calls the same callbacks, and leaves the cached deadline the minimum over active events and the cached id one that attains it |
| Scheduler.EarliestIsUnique | include/scheduler.h:53-68 | the cached deadline is determined by the table |
| Scheduler.CacheDecides | include/scheduler.h:53-68 | an event is due exactly when the cached deadline is reached |
| Scheduler.SurvivorWasScheduled | include/scheduler.h:101-120 | an event still due after a dispatch was scheduled no later than now by a callback at its own place or a later one |
| Scheduler.NothingLeftDue | include/scheduler.h:101-120 | if callbacks only schedule strictly later nothing is left due |
| Scheduler.RescheduledNowSurvives | include/scheduler.h:101-120 | an event made due at a place already passed stays due until the next dispatch |
| Scheduler.DueIsCalled | include/scheduler.h:101-120 | a due event that no earlier callback touched is called, told how late it is |
| Scheduler.CallsAscend | include/scheduler.h:101-120 | callbacks are called in table order, none twice |
| Scheduler.LateLaw | include/scheduler.h:101-120 | a callback is told exactly how late it is, up to 2^31 cycles, and beyond that modulo 2^32 |
| MemoryCard.Slot.Tick | src/memorycard.c:281-517 | one byte does to the card exactly what the protocol function says, with every index in range; without a card nothing happens |
| MemoryCard.Slot.Reset | src/memorycard.c:233-237 | deselecting forgets the transfer and nothing else |
| MemoryCard.Slot.Commit | src/memorycard.c:444-455 | the staged sector replaces the sector on the card and nothing else |
| MemoryCard.StepCloser | src/memorycard.c:281-517 | contents change only on a matching checksum byte for a sector below 1024, and then to the staged sector |
| MemoryCard.CutShortIsHarmless | src/memorycard.c:281-517 | no run of fewer than 135 bytes from a deselected card changes its contents |
| MemoryCard.BrokenOffIsHarmless | src/memorycard.c:233-517 | nor does any number of such transfers, each broken off by deselecting |
| MemoryCard.WriteSession | src/memorycard.c:281-487 | a write stores its data exactly when checksum and sector are good, and reports success exactly when also no write failed before |
| MemoryCard.ReadSession | src/memorycard.c:281-427 | a read gives the sector, its checksum and 47h, and leaves contents and FLAG alone |
| MemoryCard.WriteThenRead | src/memorycard.c:281-487 | after a good write a read of the sector gives back the same bytes, the same checksum and 47h |
| MemoryCard.StoredReads | src/memorycard.c:396-455 | a sector reads as last stored and every other is untouched |
| MemoryCard.Echo | src/memorycard.c:360-393 | the address is confirmed, or FFFFh and the transfer abandoned for a sector the card does not have |
| MemoryCard.FailureSticks | src/memorycard.c:455-458 | the write-error flag is never cleared |
| MemoryCard.NeverGoodAgain | src/memorycard.c:477-487 | after one failed write no later one is answered with success |
| MemoryCardLaws.WriteLaw | src/memorycard.c:281-487 | a write by its bytes: 81h 57h, address, 128 bytes, their exclusive-or with the address; exactly the named sector of 1024 changes, exactly when the checksum is right, and the last reply says so |
| MemoryCardLaws.ReadLaw | src/memorycard.c:281-427 | a read by its bytes, reply by reply |
| MemoryCardLaws.CheckIs | src/memorycard.c:434-452 | the checksum is the exclusive-or of address and data |
| MemoryCardLaws.HeaderReplies | src/memorycard.c:291-345 | the flag byte and the identification bytes come first |
| MemoryCardLaws.IdentifyLaw | src/memorycard.c:493-515 | the identification command by its bytes |
| MemoryCardLaws.OtherwiseLaw | src/memorycard.c:291-316 | any other first byte or command is ignored |
| Idct.InverseDct | src/mdec.c:196-294 | with any combination of shortcuts the block becomes the full two-pass transform, whose values `IdctLaws.BlockIsClose` states |
| Idct.PassColumns | src/mdec.c:209-251 | the first pass with its column skips is the full first pass, and columns left unmarked are zero |
| Idct.PassRows | src/mdec.c:253-293 | the second pass with its single-column shortcut is the full second pass |
| Idct.LoneComesOutLevel | src/mdec.c:212-219 | a line that is zero after its first entry comes out level, in wrapping 32-bit arithmetic |
| Idct.DcIsLevel | src/mdec.c:201-207 | a lone first coefficient gives a level block |
| Idct.ReadRuns | src/mdec.c:338-348 | run-length decoding fills the block and marks every column with anything below its first row |
| Idct.DecodeBlock | src/mdec.c:336-355 | a block decoded in the normal mode is the full transform of its coefficients; the single-coefficient shortcut is never taken |
| Idct.ConstantsAreRounded | src/mdec.c:30-47 | the fixed-point constants are the rounded 24-bit ones |
| IdctLaws.LineIsClose | src/mdec.c:222-293 | each of the eight outputs of a pass is within 3 and a 4000th of the inputs' size of the sum of the inputs with their cosines, an 8 by 8 table in billionths |
| IdctLaws.BlockIsClose | src/mdec.c:196-294 | each of the 64 outputs of the transform is within 39 and a 333rd of the block's weight of the double sum with the same cosines, for blocks that cannot wrap around |
| IdctLaws.ZigZagOrder | src/mdec.c:75-84 | the scan order goes from diagonal to diagonal |
| IdctLaws.EveryPlaceOnce | src/mdec.c:75-84 | and visits every place once |
| IdctLaws.RunLaw | src/mdec.c:336-348 | the i-th halfword gives the coefficient at the sum of the runs so far, by the table's entry there and the scale of the first halfword |
| IdctLaws.UnnamedLaw | src/mdec.c:298-348 | a place that no halfword names is zero |
| IdctLaws.FirstLaw | src/mdec.c:336-337 | the first halfword gives the first coefficient |
| IdctLaws.CoefficientIs | src/mdec.c:338-348 | level times entry times scale, a 4096th rounded to the nearest, halves upwards |
| IdctLaws.FirstIs | src/mdec.c:336-337 | level times entry, a 512th rounded |
| IdctLaws.HalfwordIs | src/mdec.c:318-348 | six bits of run, ten of level in two's complement |
| OrderingTable.Memory.Clear | src/dma.c:99-114 | for every address and length the table stands as specified; with the cache isolated nothing changes |
| OrderingTable.Memory.Walk | src/platform/ps2/gpu_ps2_dma.c:132-318 | the list walker visits, hands over and completes as the following function says, on any RAM |
| OrderingTable.TableWalks | src/dma.c:99-114 | a fresh table, followed from its start, is visited downwards, each entry once, hands the GPU no words, and completes exactly when it has at most 20000 entries |
| OrderingTable.WalkFrom | src/platform/ps2/gpu_ps2_dma.c:140-300 | the same from any entry and with any packet limit |
| OrderingTable.EntryReads | src/dma.c:99-114 | each entry links to the next one down, never to itself or back to the start; the last is the terminator |
| OrderingTable.OnlyTheTable | src/dma.c:99-114 | up to the size of RAM a table has as many entries as asked for and leaves every other word alone |
| OrderingTable.RegistersLaw | src/dma.c:99-114 | address and length registers: the lowest two bits and those above 2 MB do not matter, a length of 0 stands for 65536 |
| OrderingTable.TableLaw | src/dma.c:99-114 | every entry holds the byte address of the word below it, the last one FFFFFFh |
| OrderingTable.HeaderLaw | src/platform/ps2/gpu_ps2_dma.c:140-300 | a header has the number of its words in the upper byte and the next address below; FFFFFFh ends the list, a packet that names itself, the first one or an unaligned address breaks it off |

## Left out

- Instruction encodings: PSX and native words are constructors of one datatype; only jump words between blocks are modelled as numbers (`DirectLinks`).
- In the recompiler proper: loads, stores, COP0 and COP2 instructions; a block that holds one is declined at that word. `Dce` covers them for dead code elimination only.
- The overflow cold stubs and the state they leave at an exception: `SuperBlock.CompileBlock` says nothing about a run once the interpreter would trap.
- Instructions.EmitAddSub: a block with an ADD, SUB or ADDI of known constants that overflow is declined; the source emits an unconditional exception there.
- SuperBlock.CompileBlock: nothing is promised of a block in which a word reads a stale scratch register, because the code may then be wrong. The contract speaks of one machine and one interpreter state, both arbitrary, so it holds for all; the emitted words are not given as a function of the PSX words.
- Plan.Known: what a register holds whose pending constant was dropped with a dead word is not stated; no later code of the block reads it.
- The idle-loop patches, the prologue's stack frame, the interrupt-check exits and the C calls of a block.
- The LUI scan backwards from the block start (src/dynarec_compile.c:960-1084): whether it is sound depends on how control reaches the block.
- The alignment, SMRV and host-base caches, TLB backpatching and polling patches: they rest on host addresses.
- The compile-time slot and scratch state is restored from the deferred branch's saved tables as one value; the source restores constants, the dirty masks and recomputes the rest.
- BlockCache.Caches.EnsureBlock: staleness by self-modifying code is an input (a link target or block may be found stale at any time); the page generations, hashes and the epoch are not computed, and an alias of an address in another segment may keep an older block in the jump table.
- PageTable.Pages.CacheBlock: second-level pages are values held in an array, not separately allocated objects; the RAM and BIOS tables are one array.
- The GTE's VU0, VFPU and floating-point sequences, and the FLAG register of the inlined sequences, which the source does not compute.
- Gte.MatrixRowIsExact: the far-colour translation (cv = 2), whose rows add only two of the products, has a law of its own, `GteLaws.FarMvmvaLaw`.
- GteLaws.RtpsLaw: it and the other laws of whole commands speak of runs that leave FLAG empty; what is limited or wraps around, and the flag it raises, is stated stage by stage for all states (`StoreLaw`, `StoreFlags`, `ProjectStage`, `InterpolateStage` and others).
- The IPU's registers and DMA, and the decoding of its pixels back: only the bit stream is modelled. FE00h padding before a block is skipped in neither `Mpeg` nor `Idct`.
- Idct.InverseDct: how close the transform is to the cosine transform is stated by `IdctLaws.BlockIsClose` for blocks that cannot wrap around in 32 bits; for all others only that the shortcuts change nothing. The scale-table path for quantizer scale 0 and the prescaling of the quantizer table are left out.
- Gp0.Decoder.Write: draws, uploads, copies and read-backs are events handed to an abstract backend, an upload as one event; the cached drawing-environment words, the trace and GP1 apart from the acknowledgement are left out, and `Translate` is taken to consume what the table says, as the PS2 and PSP translators do.
- VramCopy.Shadow.Execute: the upload of the copied region to the graphics chip and the texture-cache invalidation.
- OrderingTable.Memory.Walk: the words of a packet are handed on as one run; what the GPU does with them, and the cycle accounting, are elsewhere or left out. Page invalidation on stores is left out.
- Scheduler.EventQueue.Tick: callbacks are arbitrary runs of additions and removals; a callback that itself dispatches is not modelled.
- MemoryCard.Slot.Tick: the two slots are independent and modelled as one class; writing the sector to its file and formatting a new card are left out.
- CD-ROM, SPU, timers, SIO, file and configuration handling, the OSD, profiling and logging.
