# JCPU translation core in Dafny

JCPU is a dynamic binary translator. It translates guest code one basic block at
a time and caches each compiled block under its start address. A run loop executes
the cached blocks, stopping at breakpoints, and a GDB Remote Serial Protocol stub
lets a debugger drive the virtual CPU. This project models that core:

- **The shared VM base** (`include/jcpu_vm.h`), in `vm_base.dfy`, `block_store.dfy` and `bp_store.dfy`:
  - 32-bit address arithmetic;
  - the `gen_cond_code` select;
  - a compiled block as a straight-line list of operations;
  - the block cache, with its start index and its end-address multimap;
  - the ordered breakpoint set and its `find_nearest` lower bound.
- **The translation loop**, in `translate.dfy`. All four targets (OpenRISC, RISC-V, ARM and
  Cortex-M0) share its structure:
  - whole-block mode scans words until a terminator or the breakpoint;
  - step mode translates one instruction;
  - the `start <= end` assertion, which ARM does not have.
- **The per-target engines**, in `engine.dfy`:
  - the constructor;
  - `disas` plus `bb_man.add`;
  - the `run` loop, including the OpenRISC interrupt entry;
  - `step_exec`;
  - `run_continue` and `set_unset_break_point`;
  - register get and set for the debugger;
  - `interrupt` and `reset`.

  The class `Engine.Vm` keeps its cache and breakpoints in a `BlockManager` and a
  `BreakpointManager` object, and each method is proved against a function on its state.
- **The per-target decoders**, in `openrisc.dfy`, `riscv.dfy` and `arm.dfy`:
  - instruction classification;
  - which instructions end a block;
  - the value-level effect of branches, jumps, stores, `OP-IMM` (RISC-V), and `ADD`
    with an immediate (ARM);
  - each immediate encoding with its round trip.
- **The older `qcpu` OpenRISC VM** (`src/target-openrisc/openrisc.cpp`), in `qcpu.dfy`. It
  nests the delay slot inside the jump and has no breakpoint support.
- **The GDB packet layer** (`src/gdbserver.cpp`), in `gdb_packet.dfy`:
  - escaping and the running checksum of the sender;
  - the receiver's state machine;
  - `check_csum`, `start_with` and `split`.
- **The command dispatch** of `wait_and_run`, in `gdb_server.dfy`, and the experimental
  stand-alone server (`experiments/gdbserver/main.cpp`), in `gdb_experiment.dfy`.
- **The test bench's memory** (`test/openrisc/main.cpp`), in `dummy_mem.dfy`: big-endian
  word storage, the console and exit ports, and the debug accessors.
- **The three-register file** behind the generated `get_reg`/`set_reg` helpers
  (`experiments/gen_helper/cpp/set_get.c`), in `reg_file.dfy`.

Addresses and register values are integers below 2^32. Every address sum is reduced
modulo 2^32, as the 32-bit `target_ulong` arithmetic does. Instruction words, whose
fields the decoders pick apart, are `bv32`. The semantics of a single
guest instruction is the LLVM code the translator emits. Here it is a parameter
`sem`, which maps an operation and a register file to a register file of the same
size. The model therefore proves what the translator itself decides: block
boundaries, instruction counts, where the next PC comes from, and what the cache and
breakpoint stores hold. For branches, jumps, stores and immediates it states the
computed values outright.

Behaviours of the code that the model follows and states:

- **ARM caches an empty block at a breakpoint.** ARM's `run` looks up or translates
  the block before it tests for a breakpoint. At an uncached breakpoint address it
  therefore caches a block cut at its own start, with no instruction in it
  (`Engine.ArmBreakCachesEmptyBlock`). Removing the breakpoint does not clear the
  cache. A later run then executes that block forever without counting an
  instruction (`Engine.ArmEmptyBlockSpins`).
- **ARM `R15` reads give the instruction's own address.** The register-read helper
  substitutes the current instruction address for R15, without the +8 of the ARM
  architecture (`Arm.ReadChecked`).
- **RISC-V `JALR` keeps bit 0.** The next PC is `rs1 + sext(imm)` and bit 0 is not
  cleared (`RiscV.Jump`).
- **The sender's checksum only sometimes agrees with the receiver.** For a byte
  that needs escaping, the sender adds the flipped byte to its checksum and leaves
  out the `}` it sends before it. The receiver sums the decoded bytes, so each
  escaped byte is summed 0x20 higher there. The receiver's check of the sender's own
  frame therefore passes exactly when the number of escaped bytes is a multiple of
  8, not only when no byte was escaped (`GdbPacket.SelfCheck`).

The older `qcpu` VM and the test bench's memory object run their code as written,
defects included: a `qcpu` step counts one instruction too many and leaves PC on a
jump's delay slot, and the bench's halfword reads and byte stores behave as the
Findings below describe. The corrected definitions stand beside them as the
reference the as-written code is measured against.

## Model

| member | source | states |
|---|---|---|
| VmBase.AddrArithIsModular | include/jcpu_vm.h:31-33 | adding to and subtracting from an address is arithmetic modulo 2^32 |
| VmBase.AddrSubAdd | include/jcpu_vm.h:31-33 | subtracting an offset after adding it gives the address back, across wrap-around |
| VmBase.GenCondCode | include/jcpu_vm.h:167-172 | the mask select yields the true value for condition 1 and the false value for condition 0 |
| VmBase.ExecBlock | include/jcpu_vm.h:52 | executing a compiled block keeps the register file's size and returns the PNEXT_PC the block leaves behind |
| VmBase.RunOpsAppend | include/jcpu_vm.h:52 | running concatenated code is running the first part and then the second on its result |
| VmBase.StagedLastIsNext | src/target-openrisc/jcpu_openrisc.cpp:211-213 | a block whose last act stages a constant as PNEXT_PC returns that constant as the next PC |
| VmBase.SetPcThenStage | src/target-openrisc/jcpu_openrisc.cpp:229-232 | code ending by setting PC and then PNEXT_PC to v leaves both registers at v |
| BlockStore.CountEnd | include/jcpu_vm.h:79-81 | the multimap count under an end address is zero exactly when no entry ends there, and never exceeds the number of entries |
| BlockStore.CountEndAppend | include/jcpu_vm.h:65-70 | filing one block raises the count under its own end address by one and leaves every other count |
| BlockStore.BlockManager.constructor | include/jcpu_vm.h:58-64 | a new manager holds no block in either index |
| BlockStore.BlockManager.FindByStartAddr | include/jcpu_vm.h:75-78 | for a cached start address, the block found starts there and is also filed in the end index |
| BlockStore.BlockManager.EntryOfCached | include/jcpu_vm.h:62-63 | every block in the start index has an entry in the end-address multimap |
| BlockStore.BlockManager.Add | include/jcpu_vm.h:65-70 | a start address already cached fails the assertion and changes nothing; otherwise the block is found by its start, filed under its end, and only that end's count rises by one |
| BlockStore.BlockManager.Invalidate | include/jcpu_vm.h:82-86 | whatever range is given, afterwards no start address exists and every end count is zero |
| BreakpointStore.Insert | include/jcpu_vm.h:104-107 | inserting keeps the keys strictly ordered, adds exactly the new address, and leaves a set that already has it unchanged |
| BreakpointStore.Delete | include/jcpu_vm.h:111-116 | erasing keeps the order, removes exactly that address, and shrinks the set by one when it was present and not at all otherwise |
| BreakpointStore.LowerBound | include/jcpu_vm.h:117-120 | the nearest breakpoint is the smallest one at or after pc, and there is none exactly when every breakpoint lies below pc |
| BreakpointStore.LowerBoundHit | include/jcpu_vm.h:117-120 | the nearest breakpoint is pc itself exactly when pc is a breakpoint |
| BreakpointStore.BreakpointManager.constructor | include/jcpu_vm.h:98-102 | a new manager has no breakpoint |
| BreakpointStore.BreakpointManager.Add | include/jcpu_vm.h:104-107 | afterwards an address is a breakpoint iff it was one before or is the one added |
| BreakpointStore.BreakpointManager.Remove | include/jcpu_vm.h:111-116 | succeeds iff the address was a breakpoint (the assertion fails otherwise, changing nothing) and removes exactly it |
| BreakpointStore.BreakpointManager.FindNearest | include/jcpu_vm.h:117-120 | returns the smallest breakpoint at or after pc, or none when all lie below |
| RegFile.Regs.constructor | experiments/gen_helper/cpp/set_get.c:1 | the three registers start at zero, as static storage does |
| RegFile.Regs.GetReg | experiments/gen_helper/cpp/set_get.c:3-7 | reads the register at the index, which must be below three because the array is unchecked |
| RegFile.Regs.SetReg | experiments/gen_helper/cpp/set_get.c:9-13 | the register at the index holds the value and no other register changes |
| RegFile.Regs.SetThenGet | experiments/gen_helper/cpp/set_get.c:3-13 | a read after a write gives the written value at that index and the old value at any other |
| Translate.Stride | src/target-openrisc/jcpu_openrisc.cpp:210 | the i-th address of the loop is start + 4i whenever that does not wrap |
| Translate.StrideStep | src/target-openrisc/jcpu_openrisc.cpp:210 | `pc += 4` moves one step along the stride, from either end |
| Translate.ScanGoesOn | src/target-openrisc/jcpu_openrisc.cpp:210-218 | after an instruction that does not end the block, the scan goes on from the next word and adds that instruction's count and code in front |
| Translate.ScanAddrs | src/target-openrisc/jcpu_openrisc.cpp:210 | the decoded addresses are consecutive words from the start address, no more than the loop's bound |
| Translate.ScanNext | src/target-openrisc/jcpu_openrisc.cpp:210-218 | the loop leaves pc on the breakpoint word when cut, or one word past the last decoded instruction otherwise |
| Translate.ScanDecodes | src/target-openrisc/jcpu_openrisc.cpp:210-218 | no decoded address is the breakpoint, every one but the last goes on, and an uncut scan ends on an instruction that ends the block |
| Translate.ScanCut | src/target-openrisc/jcpu_openrisc.cpp:211-213 | a cut scan stopped at the breakpoint and staged it as PNEXT_PC as its last act |
| Translate.ScanUncut | src/target-openrisc/jcpu_openrisc.cpp:208-219 | with no breakpoint the scan is never cut |
| Translate.ScanCount | src/target-openrisc/jcpu_openrisc.cpp:215-217 | the block count is the sum of the decode counts of the scanned addresses |
| Translate.ScanLoop | src/target-openrisc/jcpu_openrisc.cpp:208-219 | the whole-block loop computes exactly the scan, a fault of the decoder ending it with that fault |
| Translate.FinishWhole | src/target-openrisc/jcpu_openrisc.cpp:234-238 | the block spans start to pc - 4 with the scan's count and code behind the prologue; it fails the range assertion exactly when end precedes start, which ARM does not test |
| Translate.StepBlock | src/target-openrisc/jcpu_openrisc.cpp:220-233 | one instruction with its count; a terminator copies PNEXT_PC to PC and ends at start + 4; any other sets PC and PNEXT_PC to start + 4 and ends at start; wrap-around past the top fails the range assertion |
| Translate.StepBlockPlain | src/target-openrisc/jcpu_openrisc.cpp:229-232 | a plain instruction's step block is the prologue, its code, then PC and PNEXT_PC set to the next word |
| Translate.Disas | src/target-openrisc/jcpu_openrisc.cpp:208-221 | a negative max_insn translates the whole block, 1 translates one instruction, and any other value is fatal |
| Translate.WholeBlockEnd | src/target-openrisc/jcpu_openrisc.cpp:234-236 | a whole block ends on its terminator, or on the word before the breakpoint when cut |
| Translate.WholeBlockCount | src/target-openrisc/jcpu_openrisc.cpp:215-217 | a whole block's count is the sum of the decode counts of its instructions |
| Translate.CutBlockReturnsBreakpoint | src/target-openrisc/jcpu_openrisc.cpp:211-213 | executing a block cut at a breakpoint returns the breakpoint as the next PC, whatever its instructions do |
| Translate.EmptyBlock | src/target-arm/jcpu_arm.cpp:245 | a block with no instruction has count zero and ends the word before it starts |
| Translate.BreakAtStartIsEmpty | src/target-arm/jcpu_arm.cpp:218-245 | a breakpoint at the start gives ARM the empty block and makes the checked targets fail the range assertion |
| Engine.InitialRegs | src/target-openrisc/jcpu_openrisc.cpp:114-118 | PC and PNEXT_PC start at the target's reset address and every other register at zero |
| Engine.DisasSpec | src/target-openrisc/jcpu_openrisc.cpp:203-243 | a translation is filed under its start, which was not cached before, and touches only the cache; a failure changes nothing |
| Engine.IrqEntry | src/target-openrisc/jcpu_openrisc.cpp:668-674 | the interrupt entry saves PNEXT_PC in EPCR0, jumps to 0x800 and sets SR[IEE], leaving every other register |
| Engine.Advance | src/target-openrisc/jcpu_openrisc.cpp:662-674 | executing a block adds its count and leaves the cache, breakpoints and pending interrupt as they were |
| Engine.Reported | include/jcpu_vm.h:194-201 | run_continue reports BREAK, or the fault, or nothing while the run has not returned |
| Engine.RunIter | src/target-openrisc/jcpu_openrisc.cpp:617-675 | an iteration stops with BREAK only at a breakpoint on pc, goes on only when pc is not one, keeps the breakpoints and interrupt, and never lowers the count |
| Engine.RunBreaksAtBreakpoint | src/target-openrisc/jcpu_openrisc.cpp:617-678 | a whole run stops with BREAK only at a breakpoint and never changes breakpoints, interrupt or lowers the count |
| Engine.RunStopsBeforeBreakpoint | src/target-openrisc/jcpu_openrisc.cpp:620-623 | on every target but ARM, a run started on a breakpoint stops with BREAK and changes nothing |
| Engine.ArmBreakCachesEmptyBlock | src/target-arm/jcpu_arm.cpp:279-296 | an ARM run at an uncached breakpoint caches the empty block before stopping with BREAK |
| Engine.ArmEmptyBlockSpins | src/target-arm/jcpu_arm.cpp:279-296 | once that empty block is cached and the breakpoint gone, an ARM run stays at that address forever without counting |
| Engine.CortexM0Decode | src/target-cortexm0/jcpu-cortexm0.cpp:92-94 | the Cortex-M0 decoder always fails |
| Engine.CortexM0Aborts | src/target-cortexm0/jcpu-cortexm0.cpp:214-232 | a Cortex-M0 run reaching an uncached block aborts with nothing changed, and so does every step that translates |
| Engine.StepStopsBeforeBreakpoint | src/target-riscv/jcpu_riscv.cpp:600-614 | RISC-V and Cortex-M0 report BREAK without stepping when the PC is a breakpoint |
| Engine.StepCachesOneBlock | src/target-openrisc/jcpu_openrisc.cpp:680-693 | a successful step leaves exactly the block at the old PC cached and adds that instruction's decode count |
| Engine.StepBreakIsNearest | src/target-openrisc/jcpu_openrisc.cpp:680-693 | on OpenRISC and ARM a step reports BREAK exactly when the staged next PC is the nearest breakpoint at or after the old PC |
| Engine.StepPlainAdvances | src/target-riscv/jcpu_riscv.cpp:533-542 | stepping an instruction that does not end a block moves PC and PNEXT_PC to the next word |
| Engine.RegView | src/target-openrisc/jcpu_openrisc.cpp:140-147 | the debugger's register vector: general registers, then PNEXT_PC (OpenRISC), PC (RISC-V and Cortex-M0), or the whole file (ARM) |
| Engine.SetSlot | src/target-openrisc/jcpu_openrisc.cpp:149-152 | writing a slot stores the value truncated to 32 bits there and changes no other register |
| Engine.RegSlotRoundTrip | src/target-cortexm0/jcpu-cortexm0.cpp:79-90 | reading back a written slot gives the value, except the last slot of OpenRISC and Cortex-M0, which write one register and read another |
| Engine.Vm.constructor | src/target-openrisc/jcpu_openrisc.cpp:114-118 | a new VM has the initial registers, an empty cache, no breakpoint, count 0 and no pending interrupt |
| Engine.Vm.Disas | src/target-openrisc/jcpu_openrisc.cpp:203-243 | the method's result and new state are those of the disas specification |
| Engine.Vm.FindBlock | src/target-openrisc/jcpu_openrisc.cpp:624-625 | the cached block at pc, or a fresh whole block cut at the nearest breakpoint |
| Engine.Vm.Execute | src/target-openrisc/jcpu_openrisc.cpp:662-674 | the new state and next PC are those of executing the block, with the interrupt entry |
| Engine.Vm.Iterate | src/target-openrisc/jcpu_openrisc.cpp:619-675 | the new state is one iteration of the run loop |
| Engine.Vm.Run | src/target-openrisc/jcpu_openrisc.cpp:617-678 | the run from the PC register, within the iteration budget |
| Engine.Vm.StepExec | src/target-openrisc/jcpu_openrisc.cpp:680-693 | the step specification from the current state |
| Engine.Vm.FinishStep | src/target-openrisc/jcpu_openrisc.cpp:686-692 | executing the step block, adding its count and reporting BREAK or STEP |
| Engine.Vm.RunContinue | include/jcpu_vm.h:194-201 | a step when asked, a run otherwise, reported as the debugger sees it |
| Engine.Vm.SetUnsetBreakPoint | include/jcpu_vm.h:208-217 | setting adds the 32-bit address and empties the cache; unsetting succeeds iff the address was set, removes it and leaves the cache |
| Engine.Vm.GetRegValue | src/target-openrisc/jcpu_openrisc.cpp:140-147 | the register vector of the target |
| Engine.Vm.SetRegValue | src/target-openrisc/jcpu_openrisc.cpp:149-152 | succeeds iff the slot is below the target's limit, then writes that slot only; otherwise nothing changes |
| Engine.Vm.Interrupt | src/target-openrisc/jcpu_openrisc.cpp:723-726 | OpenRISC and RISC-V accept interrupt 0 only and record its level, ARM ignores the call, Cortex-M0 aborts |
| Engine.Vm.Reset | src/target-openrisc/jcpu_openrisc.cpp:728-730 | OpenRISC and RISC-V drop the pending interrupt; the other targets change nothing |
| OpenRisc.FieldsAreBitSub | src/target-openrisc/jcpu_openrisc.cpp:413-424 | each instruction field is the bit_sub slice the decoder names |
| OpenRisc.Lo16IsBitSub | src/target-openrisc/jcpu_openrisc.cpp:420 | the 16-bit immediate is bits 0..15 |
| OpenRisc.N26IsBitSub | src/target-openrisc/jcpu_openrisc.cpp:423 | the jump displacement is bits 0..25 |
| OpenRisc.ClassifyOther | src/target-openrisc/jcpu_openrisc.cpp:411-590 | l.j, l.jal, l.bnf, l.bf, l.jr and l.jalr have a delay slot (only l.jalr reading its target after the slot), l.rfe ends a block without one, and a word of the l.nop group is plain exactly when its op1 field is 1 |
| OpenRisc.Classify | src/target-openrisc/jcpu_openrisc.cpp:154-201 | reserved majors are invalid; the logical, compare and arithmetic groups are plain exactly when their sub-opcodes are known and never end a block; exactly the jump, branch and l.rfe majors end a block |
| OpenRisc.DisasInsn | src/target-openrisc/jcpu_openrisc.cpp:154-201 | a fetch fault fails as a memory fault and an unknown encoding as unimplemented; an instruction with a delay slot counts 2 and ends the block; l.rfe counts 1 and ends it; an instruction that does not end the block counts 1 |
| OpenRisc.DelaySlotTerminatorFatal | src/target-openrisc/jcpu_openrisc.cpp:429-510 | a jump, branch or l.rfe in the delay slot of a jump or branch never yields a block, and when the nested decode succeeds the failure is the delay-slot assertion |
| OpenRisc.BlockCountsDelaySlot | src/target-openrisc/jcpu_openrisc.cpp:208-218 | a whole block counts one per outer address plus one for the delay slot when it ends on a jump or branch; an uncut block ends on a jump, branch or l.rfe; a cut block counts its addresses |
| OpenRisc.BranchOffset | src/target-openrisc/jcpu_openrisc.cpp:450-468 | the branch offset is a multiple of 4 whose sign is that of the immediate |
| OpenRisc.BranchOffsetIsTemplate | src/target-openrisc/jcpu_openrisc.cpp:450-468 | the offset is the sign-extended immediate shifted left by 2 |
| OpenRisc.SelectBranch | src/target-openrisc/jcpu_openrisc.cpp:450-468 | the select picks the offset when the branch is taken and 8 otherwise |
| OpenRisc.BranchNext | src/target-openrisc/jcpu_openrisc.cpp:450-468 | l.bf goes to pc + offset when the flag is set and l.bnf when it is clear, and to pc + 8 otherwise |
| OpenRisc.ClearFlag | src/target-openrisc/jcpu_openrisc.cpp:86-93 | clearing SR[F] changes only that bit |
| OpenRisc.JumpOffset | src/target-openrisc/jcpu_openrisc.cpp:429-438 | the jump offset is a multiple of 4 whose sign is that of the displacement |
| OpenRisc.JumpOffsetIsTemplate | src/target-openrisc/jcpu_openrisc.cpp:429-438 | the offset is the sign-extended displacement shifted left by 2 |
| OpenRisc.LinkValue | src/target-openrisc/jcpu_openrisc.cpp:439-449 | the link register gets pc + 4 with the no-delay-slot bit set and pc + 8 otherwise |
| OpenRisc.FlagBitsAreBitSub | src/target-openrisc/jcpu_openrisc.cpp:86-93 | the flag, delay-slot and interrupt-enable bits of SR are the single-bit slices |
| OpenRisc.GenSetSr | src/target-openrisc/jcpu_openrisc.cpp:86-93 | writing a flag replaces that one bit of SR and keeps every other |
| OpenRisc.StoreImm | src/target-openrisc/jcpu_openrisc.cpp:424 | the 16-bit store immediate joins bits 21..25 above bits 0..10 |
| RiscV.FieldsAreBitSub | src/target-riscv/jcpu_riscv.cpp:15-18 | each instruction field is the bit_sub slice the decoder names |
| RiscV.Classify | src/target-riscv/jcpu_riscv.cpp:161-190 | unknown kinds are invalid; exactly the branch, JALR and JAL kinds end a block, when their sub-fields are known; loads, stores and the register and immediate groups are plain exactly when their sub-opcodes are known |
| RiscV.DisasInsn | src/target-riscv/jcpu_riscv.cpp:148-197 | fails exactly on an unknown encoding; ends the block exactly on a branch, JAL or JALR |
| RiscV.BlockCountIsLength | src/target-riscv/jcpu_riscv.cpp:513-529 | a whole block counts one per instruction, and an uncut block ends on a branch or jump |
| RiscV.ReadAfterWrite | src/target-riscv/jcpu_riscv.cpp:138-146 | x0 always reads zero and a write to it changes nothing; any other register reads what was last written to it while the rest keep their values |
| RiscV.SignedLessIsSignedOrder | src/target-riscv/jcpu_riscv.cpp:452-454 | the signed comparison orders words as two's-complement integers |
| RiscV.BranchRaw | src/target-riscv/jcpu_riscv.cpp:423-427 | the gathered branch immediate is even and below 2^13 |
| RiscV.BranchRawIsTemplate | src/target-riscv/jcpu_riscv.cpp:423-427 | the gathering takes bits 31, 7, 25..30 and 8..11 to offset bits 12, 11, 5..10 and 1..4 |
| RiscV.BranchRoundTrip | src/target-riscv/jcpu_riscv.cpp:423-427 | encoding an even 13-bit offset and gathering it back gives the offset |
| RiscV.BranchOffsetSign | src/target-riscv/jcpu_riscv.cpp:428-435 | the sign-extended branch offset is even and negative exactly when the instruction's top bit (offset bit 12) is set |
| RiscV.BranchPairs | src/target-riscv/jcpu_riscv.cpp:444-463 | BEQ/BNE, BLT/BGE and BLTU/BGEU are each other's negation |
| RiscV.BranchNext | src/target-riscv/jcpu_riscv.cpp:466-468 | a taken branch goes to pc + offset and an untaken one to pc + 4 |
| RiscV.JalRawIsTemplate | src/target-riscv/jcpu_riscv.cpp:494-498 | the gathering takes bits 31, 12..19, 20 and 21..30 to offset bits 20, 12..19, 11 and 1..10 |
| RiscV.JalRoundTrip | src/target-riscv/jcpu_riscv.cpp:494-498 | encoding an even 21-bit offset and gathering it back gives the offset |
| RiscV.JalOffsetSign | src/target-riscv/jcpu_riscv.cpp:499-500 | the sign-extended jump offset is even and negative exactly when the instruction's top bit (offset bit 20) is set |
| RiscV.StoreRawIsTemplate | src/target-riscv/jcpu_riscv.cpp:410 | the store offset joins bits 25..31 above bits 7..11 |
| RiscV.StoreRoundTrip | src/target-riscv/jcpu_riscv.cpp:410 | encoding a 12-bit offset and gathering it back gives the offset |
| RiscV.StoreAccess | src/target-riscv/jcpu_riscv.cpp:405-420 | the address is the base plus the sign-extended offset and the width is 1, 2, 4 or 8 bytes by funct3 |
| RiscV.Jump | src/target-riscv/jcpu_riscv.cpp:473-508 | JAL goes to pc + offset, JALR to rs1 + offset; rd gets pc + 4 and no other register changes |
| RiscV.JalrReadsBeforeWrite | src/target-riscv/jcpu_riscv.cpp:485-489 | JALR with rd equal to rs1 jumps by the old value of rs1 |
| RiscV.Shift | src/target-riscv/jcpu_riscv.cpp:239-277 | a shift by 32 or more yields nothing, any smaller amount the shifted word |
| RiscV.OpImmAsWritten | src/target-riscv/jcpu_riscv.cpp:224-296 | as written, the OP-IMM group yields nothing exactly for SRAI, whose raw 12-bit shift amount is 0x400 or more |
| RiscV.OpImm | src/target-riscv/jcpu_riscv.cpp:224-296 | the OP-IMM group with the sign-extended immediate and the 5-bit shift amount always yields a result |
| RiscV.AddiAddsImmediate | src/target-riscv/jcpu_riscv.cpp:231-238 | ADDI adds the sign-extended immediate modulo 2^32 |
| RiscV.SltiComparesSigned | src/target-riscv/jcpu_riscv.cpp:248-253 | corrected SLTI yields 1 exactly when rs1 is below the sign-extended immediate as signed integers |
| RiscV.SltiuComparesUnsigned | src/target-riscv/jcpu_riscv.cpp:254-259 | corrected SLTIU yields 1 exactly when rs1 is below the sign-extended immediate as unsigned words |
| RiscV.SraiShiftsTooFar | src/target-riscv/jcpu_riscv.cpp:267-277 | as written, `srai x1, x1, 1` shifts by 0x401 and yields nothing; corrected, it shifts right arithmetically by 1 |
| RiscV.SltiIgnoresSign | src/target-riscv/jcpu_riscv.cpp:248-253 | as written, `slti x1, x0, -1` sets 1 where the architecture gives 0 |
| Arm.FieldsAreBitSub | src/target-arm/jcpu_arm.cpp:23-26 | each instruction field is the bit_sub slice the decoder names |
| Arm.Imm24IsBitSub | src/target-arm/jcpu_arm.cpp:416-432 | the branch displacement is bits 0..23 |
| Arm.Group | src/target-arm/jcpu_arm.cpp:162-211 | class 7 is a software interrupt (bit 24 set) or a coprocessor instruction, class 1 data processing with an immediate, class 2 load/store with an immediate, class 5 a branch |
| Arm.DisasInsn | src/target-arm/jcpu_arm.cpp:162-211 | a fetch fault fails as a memory fault; succeeds exactly on a supported form; groups other than data-immediate, load/store-immediate and branch are unimplemented; a condition other than "always" is fatal except for loads and stores; branches end the block |
| Arm.BlockCountIsLength | src/target-arm/jcpu_arm.cpp:218-229 | a whole block counts one per instruction, and an uncut block ends on an instruction that ends blocks |
| Arm.WriteCheckedRedirects | src/target-arm/jcpu_arm.cpp:81-90 | a write to R15 goes to PNEXT_PC and leaves PC; any other write changes that register only |
| Arm.BranchOffsetSign | src/target-arm/jcpu_arm.cpp:416-432 | the branch offset is negative exactly when bit 23 of the displacement is set |
| Arm.BranchOffsetIsTemplate | src/target-arm/jcpu_arm.cpp:416-432 | the offset is the sign-extended displacement shifted left by 2 |
| Arm.BranchRoundTrip | src/target-arm/jcpu_arm.cpp:416-432 | encoding a signed 24-bit word displacement, forward or backward, and decoding it gives four times the displacement |
| Arm.BranchEffect | src/target-arm/jcpu_arm.cpp:416-432 | B and BL go to pc + 8 + offset; BL also sets R14 to pc + 4; nothing else changes |
| Arm.LdStWriteBack | src/target-arm/jcpu_arm.cpp:370-400 | with write-back, the base register (PNEXT_PC when the base is R15) ends up holding the offset address |
| Arm.LdStLoadsRd | src/target-arm/jcpu_arm.cpp:370-400 | a load puts the loaded word in Rd (PNEXT_PC when Rd is R15) unless write-back targets the same register |
| Arm.LdStRedirectsPc | src/target-arm/jcpu_arm.cpp:370-400 | a load or store never writes the PC register itself, and one that does not end the block leaves PNEXT_PC |
| Arm.LdStFrame | src/target-arm/jcpu_arm.cpp:370-400 | a load or store changes no register other than Rd, the base and PNEXT_PC |
| Arm.RotatedImmUndo | src/target-arm/jcpu_arm.cpp:349-368 | rotating the decoded immediate left by twice the rotate field gives back the 8-bit immediate |
| Arm.AddImm | src/target-arm/jcpu_arm.cpp:349-368 | corrected ADD with an immediate writes Rn (read through the PC check) plus the rotated immediate to Rd, or to PNEXT_PC when Rd is R15 |
| Arm.AddR0Rotated | src/target-arm/jcpu_arm.cpp:349-368 | corrected `add r0, r0, #0x100` adds 0x100 |
| Arm.AddImmIgnoresRotation | src/target-arm/jcpu_arm.cpp:356-360 | as written, `add r0, r0, #0x100` adds the raw 12-bit field 0xC01 instead of 0x100 |
| Qcpu.DisasInsn | src/target-openrisc/openrisc.cpp:308-355 | a classification fault propagates; a jump counts 2 with its delay slot decoded inside and ends the block; everything else counts 1; the call ends by setting PC to pc + 4 |
| Qcpu.JumpInDelaySlotFatal | src/target-openrisc/openrisc.cpp:308-355 | a jump in the delay slot of a jump never yields a block |
| Qcpu.WholeBlock | src/target-openrisc/openrisc.cpp:357-366 | the whole block is the scan with no breakpoint test, ending at pc - 4 |
| Qcpu.WholeBlockEndsOnJump | src/target-openrisc/openrisc.cpp:361-366 | a whole block ends on its first jump and the loop stops on the word after it |
| Qcpu.WholeBlockStraight | src/target-openrisc/openrisc.cpp:361-366 | every word of a whole block before its end is a straight instruction |
| Qcpu.WholeBlockCount | src/target-openrisc/openrisc.cpp:361-375 | a whole block counts its words plus the delay slot of its jump |
| Qcpu.WholeCountAsWritten | src/target-openrisc/openrisc.cpp:375 | the written count formula agrees with the decode count for a whole block shorter than 2^30 words |
| Qcpu.StepBlock | src/target-openrisc/openrisc.cpp:367-372 | corrected step block (a reference the VM does not run): the count is the number of decoded instructions and the end is the delay slot of a jump or the instruction itself |
| Qcpu.StepCountsOneExtra | src/target-openrisc/openrisc.cpp:375 | as written, a step counts one instruction too many: 2 for a straight instruction |
| Qcpu.StepLeavesPcInDelaySlot | src/target-openrisc/openrisc.cpp:367-372 | as written, stepping a jump leaves the PC register on the delay slot instead of the jump target |
| Qcpu.StepPcIsNext | src/target-openrisc/openrisc.cpp:367-372 | with the corrected step block the PC register holds the next PC the block returns |
| Qcpu.Translation | src/target-openrisc/openrisc.cpp:357-379 | a negative max_insn gives the whole block, 1 the step block as written, any other is fatal |
| Qcpu.DisasSpec | src/target-openrisc/openrisc.cpp:113-139 | a translation is filed under its start, which was not cached; a failure changes nothing |
| Qcpu.Count | src/target-openrisc/openrisc.cpp:716-724 | adding to the `unsigned int` counter is 32-bit address-style addition, and plain addition while the sum stays below 2^32 |
| Qcpu.RunIter | src/target-openrisc/openrisc.cpp:714-726 | one run iteration keeps every cached block, unchanged; when it goes on, the block at pc is cached and its count is added to the counter modulo 2^32 |
| Qcpu.RunFrom | src/target-openrisc/openrisc.cpp:713-726 | the run loop's counter ends as its old value plus the counts of the blocks it executed, in order, modulo 2^32 |
| Qcpu.RunKeepsCache | src/target-openrisc/openrisc.cpp:714-726 | a whole run only adds to the cache: every block cached before is still cached, unchanged |
| Qcpu.StepCachesOneBlock | src/target-openrisc/openrisc.cpp:728-739 | a step leaves exactly its own block cached, adds one more than the number of decoded instructions to the 32-bit counter, and after a jump leaves PC on the delay slot |
| Qcpu.RegView | src/target-openrisc/openrisc.cpp:275-282 | 33 slots, the general registers followed by PNEXT_PC |
| Qcpu.SlotRoundTrip | src/target-openrisc/openrisc.cpp:275-286 | slots below 32 read back what was written; slot 32 is written to PC but read from PNEXT_PC |
| Qcpu.InitialRegs | src/target-openrisc/openrisc.cpp:245-249 | PC and PNEXT_PC start at 0x100 and every other register at zero |
| Qcpu.Vm.constructor | src/target-openrisc/openrisc.cpp:245-249 | a new VM has the initial registers, an empty cache and count 0 |
| Qcpu.Vm.Disas | src/target-openrisc/openrisc.cpp:357-379 | the method's result and new state are those of the disas specification |
| Qcpu.Vm.Iterate | src/target-openrisc/openrisc.cpp:714-726 | the new state is one iteration of the run loop |
| Qcpu.Vm.Run | src/target-openrisc/openrisc.cpp:714-726 | the run from the fixed address 0x100, within the iteration budget |
| Qcpu.Vm.StepExec | src/target-openrisc/openrisc.cpp:728-739 | the step specification, with the step block as written, from the current state |
| Qcpu.Vm.RunContinue | src/target-openrisc/openrisc.cpp:288-295 | a step or a run; the result is a failure exactly when the run or step aborted |
| Qcpu.Vm.SetUnsetBreakPoint | src/target-openrisc/openrisc.cpp:304-306 | breakpoints are not supported: always fatal |
| Qcpu.Vm.GetRegValue | src/target-openrisc/openrisc.cpp:275-282 | the 33-slot register vector |
| Qcpu.Vm.SetRegValue | src/target-openrisc/openrisc.cpp:283-286 | succeeds iff the slot is below 33, then writes that slot only |
| GdbPacket.SubstSumShort | src/gdbserver.cpp:16-29 | the sender's running sum falls short of the sum of the unescaped body by 32 per escaped byte |
| GdbPacket.HexRoundTrip | src/gdbserver.cpp:24-29 | a nibble's hex digit decodes back to the nibble |
| GdbPacket.SendMsg.constructor | src/gdbserver.cpp:16-29 | an empty message with checksum 0 |
| GdbPacket.SendMsg.Add | src/gdbserver.cpp:16-23 | appends the byte, or `}` and the flipped byte when it needs escaping, and adds the byte actually placed after any `}` (the flipped one) to the checksum |
| GdbPacket.SendMsg.AddAll | src/gdbserver.cpp:30-33 | appending a string appends all its bytes to the body, escaped and summed as one by one |
| GdbPacket.SendMsg.GetCsum | src/gdbserver.cpp:24-29 | each checksum digit is the hex digit of the high or low nibble of the running sum |
| GdbPacket.SendMsg.Framed | src/gdbserver.cpp:40-46 | the frame sent is `$`, the escaped body, `#` and the two-digit checksum as the sender computes it |
| GdbPacket.CsumDigits | src/gdbserver.cpp:24-29 | the two checksum digits are hex digits of the high and low nibbles |
| GdbPacket.PlainBodySums | src/gdbserver.cpp:40-46 | with no byte to escape the sender's frame is the protocol frame |
| GdbPacket.HashBodyChecksum | src/gdbserver.cpp:16-29 | as written, the body `#` is sent as `$}\x03#03`, where the protocol checksum is 0x80 |
| GdbPacket.ReceiveEncoded | src/gdbserver.cpp:62-109 | the receiver turns the encoding of any byte back into that byte |
| GdbPacket.ParseFramed | src/gdbserver.cpp:62-109 | parsing `$`, an escaped body, `#` and two digits yields the body and the checksum the digits denote, and leaves the rest of the input |
| GdbPacket.FrameRoundTrip | src/gdbserver.cpp:62-114 | the protocol frame of any body parses back to that body, with the checksum of the transmitted bytes |
| GdbPacket.FrameAsWrittenRoundTrip | src/gdbserver.cpp:40-109 | the sender's frame parses back to its body, with the sender's running sum as checksum |
| GdbPacket.SelfCheck | src/gdbserver.cpp:111-114 | the receiver accepts the sender's own frame exactly when the number of escaped bytes is a multiple of 8 |
| GdbPacket.ReadMsg | src/gdbserver.cpp:62-109 | the receive loop computes the parse of its input |
| GdbPacket.StartWith | src/gdbserver.cpp:122-131 | true exactly when the literal is a prefix of the message |
| GdbPacket.FieldsCommaFree | src/gdbserver.cpp:133-149 | no field contains a comma |
| GdbPacket.SplitJoin | src/gdbserver.cpp:133-149 | the fields are comma-free, and joining them with commas gives the message back, less a trailing comma |
| GdbPacket.Split | src/gdbserver.cpp:133-149 | the split loop computes the comma-separated fields |
| GdbServer.HexStringValue | src/gdbserver.cpp:232-267 | the hex string of a number denotes that number |
| GdbServer.HexStringLength | src/gdbserver.cpp:258-267 | a number's hex string fits in k digits exactly when the number is below 16^k |
| GdbServer.PaddedHex | src/gdbserver.cpp:258-267 | zero-padding keeps the value and reaches the requested width when the number fits |
| GdbServer.ParseHexString | src/gdbserver.cpp:232-257 | parsing a number's hex string, followed by a non-digit, gives the number |
| GdbServer.DecodeReadMem | src/gdbserver.cpp:232-242 | an `m addr,len` request decodes to a memory read of that address and length |
| GdbServer.DecodeBreakPoint | src/gdbserver.cpp:243-257 | a `Z`/`z` request decodes to setting or clearing a breakpoint at the address |
| GdbServer.DecodeLetters | src/gdbserver.cpp:193-231 | `?`, `c`, `s` and `g` decode to their commands |
| GdbServer.DecodeQueries | src/gdbserver.cpp:193-207 | `qSupported`, `qC`, `qOffsets`, `Hc` and `Hg` requests decode to their commands, none shadowing another |
| GdbServer.CallOf | src/gdbserver.cpp:193-267 | continue and step call run_continue, `m` the debug read, `Z`/`z` the breakpoint call, `g` the register read; queries call nothing |
| GdbServer.RegsReplyValues | src/gdbserver.cpp:258-267 | each fixed-width hex slot of the register reply denotes that register's value |
| GdbServer.MemReplyValue | src/gdbserver.cpp:232-242 | the memory reply is hex denoting the value read |
| GdbServer.RepliesPlain | src/gdbserver.cpp:193-267 | no reply contains a byte that needs escaping |
| GdbServer.ReplyFramesAgree | src/gdbserver.cpp:274-275 | for every reply the sender's frame is the protocol frame, so the debugger accepts it |
| GdbServer.CallEnd | src/gdbserver.cpp:209-257 | commands that make no target call, and `g`, always go on to their reply; the others go on exactly when their call returns |
| GdbServer.Respond | src/gdbserver.cpp:193-275 | a request that does not decode is fatal; a target call that aborts or never returns ends the session with nothing sent; otherwise the acknowledgement and the sender's frame of the reply go out |
| GdbServer.EndOfStreamAborts | src/gdbserver.cpp:177-291 | a session whose input ends aborts without sending anything |
| GdbServer.OneExchange | src/gdbserver.cpp:177-291 | a framed request makes its call; if the call returns, the reply is sent and the session goes on with the rest of the input, and if it aborts or never returns, the session ends there with nothing sent |
| GdbServer.Serve | src/gdbserver.cpp:177-291 | the serve loop computes the session transcript |
| GdbExperiment.Respond | experiments/gdbserver/main.cpp:159-191 | never aborts and never calls the VM; it sends nothing exactly when the message is empty |
| GdbExperiment.ReplyFramesAgree | experiments/gdbserver/main.cpp:159-191 | no reply of the experiment needs escaping, so its frame with the sender's checksum is the protocol frame |
| GdbExperiment.ZeroRegsAreZeroRegisters | experiments/gdbserver/main.cpp:177-181 | the canned register reply for n registers is the register reply of n zeros in 8-digit hex |
| GdbExperiment.RegsReadZero | experiments/gdbserver/main.cpp:177-181 | every register slot of the reply denotes zero |
| GdbExperiment.UnknownGetsEmptyReply | experiments/gdbserver/main.cpp:182-188 | an unrecognised non-empty request is answered `+$#00+`, the empty packet between acknowledgements |
| GdbExperiment.SetThreadGUnknown | experiments/gdbserver/main.cpp:165-183 | `Hg`, which the main server decodes, is not among the requests the experiment recognises |
| GdbExperiment.NackIsSilent | experiments/gdbserver/main.cpp:83-130 | a `-` byte is skipped with nothing sent |
| GdbExperiment.EndOfStreamSpins | experiments/gdbserver/main.cpp:159-191 | after the input ends the loop sends nothing and calls nothing, whatever the budget |
| DummyMem.OutOfRange | test/openrisc/main.cpp:38-46 | an access past memory aborts, except at 0xFFFFFFFF, the debugger's probe, which reads a value |
| DummyMem.ReadPastEnd | test/openrisc/main.cpp:38-46 | a double-word read running past the end of memory aborts |
| DummyMem.ReadDoubleWord | test/openrisc/main.cpp:66-72 | a double word is the two big-endian words, the first in the high half |
| DummyMem.ReadHalfword | test/openrisc/main.cpp:57-65 | corrected halfword read: the byte at the address followed by the next one, big-endian |
| DummyMem.HalfwordMisread | test/openrisc/main.cpp:57-65 | as written, a halfword read at 2 aborts, one at 4 returns the halfword at 6, and one at any even address from 6 up aborts where the intended read succeeds; only the one at 0 is right |
| DummyMem.HalfwordMisreadWitness | test/openrisc/main.cpp:57-65 | with word 1 equal to 0x11223344, reading the halfword at 4 gives 0x3344 as written and 0x1122 as intended |
| DummyMem.PutByteLanes | test/openrisc/main.cpp:89-93 | corrected byte store: the addressed big-endian lane takes the low 8 bits of the value and no other lane changes |
| DummyMem.PutByteSmall | test/openrisc/main.cpp:89-93 | for a value below 256 the byte store as written agrees with the corrected one |
| DummyMem.ByteStoreSpills | test/openrisc/main.cpp:89-93 | as written, storing a value above 0xFF in a lane overwrites neighbouring lanes |
| DummyMem.WriteKeepsGood | test/openrisc/main.cpp:101-109 | every write, as written or corrected, keeps the prefix flag set exactly when the console is empty or ends with a newline |
| DummyMem.WriteEffects | test/openrisc/main.cpp:78-120 | a write as written exits exactly at 0x60000008 and prints exactly at 0x60000004; it aborts exactly on a size other than 1 or 4 inside memory or an unknown address outside it; outside memory the words never change |
| DummyMem.ByteWriteRead | test/openrisc/main.cpp:47-93 | with the corrected, masked byte store, reading a byte back after storing it gives the value's low 8 bits, and every other byte is unchanged |
| DummyMem.ByteWriteReadAsWritten | test/openrisc/main.cpp:47-93 | with the byte store as written, the stored byte reads back as the value's low 8 bits; bytes of other words and bytes at higher offsets of the same word are unchanged, and for a value below 256 every other byte is |
| DummyMem.WordWriteRead | test/openrisc/main.cpp:37-93 | reading a word back after storing it gives the value's low 32 bits, and every other word is unchanged |
| DummyMem.Memory.constructor | test/openrisc/main.cpp:25-36 | memory holds the given image, the console is empty and the next character starts a line |
| DummyMem.Memory.MemRead | test/openrisc/main.cpp:37-77 | the read method computes the as-written read on the current words, the `addr / 2` halfword switch included |
| DummyMem.Memory.MemWrite | test/openrisc/main.cpp:78-120 | the write method leaves the state the as-written write gives, with the unmasked byte store |
| DummyMem.Memory.MemReadDbg | test/openrisc/main.cpp:121-123 | the debugger read is the ordinary read, as written |
| DummyMem.Memory.MemWriteDbg | test/openrisc/main.cpp:124-126 | the debugger write is the ordinary write, as written |

## Left out

- LLVM code generation and the JIT: the code a block runs is the abstract `sem`.
  Only arithmetic, comparison, load and store instructions whose results feed the
  properties above (OP-IMM, branches, jumps, stores, ARM branches, ADD immediate and
  load/store) have their values stated. The other instructions are classified only.
- Carry and overflow flags of OpenRISC's arithmetic are not modelled, as nothing the
  core decides depends on them.
- The run loop has no exit but a breakpoint or a fault. It is modelled with an
  iteration budget, and a run that exhausts it ends as `OutOfFuel`, which
  `run_continue` reports as nothing.
- A whole-block scan that wraps through all 2^32 addresses without a terminator
  ends with the fault `Runaway`. The source would loop on.
- Qcpu.DisasInsn: nesting of delay slots inside delay slots is bounded by a `nest`
  parameter; the source recurses without a bound until a jump in a delay slot
  aborts.
- OpenRisc.DisasInsn: the same `nest` bound. With `nest` 0 every jump or branch
  fails with `Runaway`. The decoder the translation loop uses passes 2^32, so only a
  chain of 2^32 jumps, each in the delay slot of the one before, reports `Runaway`
  where the source would recurse until its stack runs out.
- Arm.AddImmAsWritten, Arm.OffsetAddr: the source adds or subtracts a 12-bit LLVM
  constant to a 32-bit register value, which LLVM does not accept as typed. The
  model reads the constant as zero-extended to 32 bits.
- RiscV.OpImmAsWritten, RiscV.SltiComparesSigned: SLT/SLTI/SLTU/SLTIU hand a 1-bit
  comparison result to the 32-bit register write. The model reads it as 0 or 1.
- Engine.Advance, Engine.RunIter, Engine.RunBreaksAtBreakpoint, Engine.StepCachesOneBlock:
  the jcpu instruction counter is a `uint64_t` and is modelled unbounded; it would
  wrap only after 2^64 counted instructions.
- Engine.Env: the decoder `dec` is fixed for the VM's lifetime. Code memory is
  immutable, so a guest store to code is never seen by translation.
- GdbServer.Target: the target's answers are fixed for the whole session, so a `g`
  after an `s` sees the same registers as before it. `get_reg_value` always returns.
  A call that aborts and one that never returns both end the session without a
  reply; the model does not say which calls of which target do either.
- The qcpu instruction decoders are abstracted to a classifier that says whether
  a word is a jump, a straight instruction or a fault.
- Diagnostics and dumps (`dump_ir`, the debug printouts) produce nothing the model needs.
- Sockets, the 10-port retry loop and the TCP connection of both GDB servers: a
  session reads from a byte sequence and writes a byte sequence.
- `jcpu_assert` and `abort()` are modelled as returned failures, not as process exit.
- The address translation `code_v2p` is the identity in every target and is not modelled.
- `invalidate`'s range: every caller empties the whole cache, so the range is ignored.
- GdbServer.Decode: the contract states only that the empty request fails; its
  meaning on each command is carried by the lemmas DecodeQueries, DecodeLetters,
  DecodeReadMem and DecodeBreakPoint. `strtol`'s handling of
  signs, whitespace, overflow and an optional `0x`/`0X` prefix is not modelled
  (`m0x10,4` reads address 0x10, where the model reads 0); numbers are unsigned hex.
- The test bench's image loading from a file: the constructor takes the image.
- Console output is a byte sequence and exit is a status, not I/O.
- `get_reg_width` is the constant 32 and not a member of its own.
- `experiments/gdbserver/main.cpp`'s infinite loop after the input ends is bounded
  by a budget.

## Findings

| source | as written | input that shows it | evidently intended | confidence | as-written member | corrected member |
|---|---|---|---|---|---|---|
| src/target-riscv/jcpu_riscv.cpp:267-277 | SRAI shifts by the whole 12-bit immediate, including the funct7 bit 30 | `srai x1, x1, 1` shifts by 0x401 | shift by the low 5 bits | not executed | RiscV.SraiShiftsTooFar | RiscV.OpImm |
| src/target-riscv/jcpu_riscv.cpp:248-253 | SLTI compares against the zero-extended 12-bit field | `slti x1, x0, -1` sets x1 to 1 | compare against the sign-extended immediate, giving 0 | not executed | RiscV.SltiIgnoresSign | RiscV.SltiComparesSigned |
| src/target-arm/jcpu_arm.cpp:356-360 | ADD immediate adds the raw 12-bit shifter field | `add r0, r0, #0x100` (field 0xC01) adds 0xC01, reading the 12-bit constant as zero-extended | add the 8-bit immediate rotated by twice the rotate field | not executed | Arm.AddImmIgnoresRotation | Arm.AddR0Rotated |
| src/target-openrisc/openrisc.cpp:375 | the step count is 1 + (pc - start) / 4 with pc one word past the block | a step of a straight instruction counts 2 | count the instructions decoded | not executed | Qcpu.StepCountsOneExtra | Qcpu.StepBlock |
| src/target-openrisc/openrisc.cpp:367-372 | a jump's step block leaves PC on the delay slot | stepping `l.j` at any address | PC := PNEXT_PC so the next step starts at the target | not executed | Qcpu.StepLeavesPcInDelaySlot | Qcpu.StepPcIsNext |
| src/gdbserver.cpp:16-29 | the checksum sums each escaped byte after flipping it and leaves out the `}` sent before it | body `#` is sent with checksum 03 | checksum the transmitted bytes, 0x80 here | not executed | GdbPacket.HashBodyChecksum | GdbPacket.FrameRoundTrip |
| test/openrisc/main.cpp:57-65 | the halfword read switches on addr / 2, so it succeeds only at 0 and 4 (at 4 with the wrong half) and aborts at 2 and at every even address from 6 up | word 1 = 0x11223344, halfword read at 4 gives 0x3344 | big-endian: 0x1122 | not executed | DummyMem.HalfwordMisreadWitness | DummyMem.ReadHalfword |
| test/openrisc/main.cpp:89-93 | a byte store ORs the unmasked value into its lane | store 0x100 at lane 3 of word 0 changes lane 2 | mask the value to 8 bits | not executed | DummyMem.ByteStoreSpills | DummyMem.PutByteLanes |
