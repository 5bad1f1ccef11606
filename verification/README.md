# RPCEmu Extended in Dafny

RPCEmu Extended emulates Acorn's Risc PC. Most of its hard code is a fast form that has to agree
with a simple one, or a state machine that has to stay right over runs of any length. This project
models those parts and proves the agreement for all inputs and all runs.

| file | what it models | main results |
|---|---|---|
| `Words.dfy` | 32-bit words, with C's wrap-around written out, and bitwise operations | masking and merging as arithmetic |
| `Flags.dfy` | the condition flags of arithmetic | `AdcExact`, `AdcChainExact`, `SbcChainExact` |
| `Interpreter.dfy` | the interpreter's data-processing, multiply and branch handlers | the reference for the recompilers |
| `Encoding.dfy`, `Shifter.dfy`, `Conditions.dfy`, `Handlers.dfy` | what instruction fields, shifter, condition codes and handlers mean, as numbers and single bits | `ShifterValue`, `ConditionMeans`, `ArithmeticMeans`, `MultiWordAdd`, `MultiWordSub` |
| `HostA64.dfy`, `Recompiler.dfy` | the AArch64 recompiler on an abstract host | `RecompileCorrect`, `BranchCorrectIff` |
| `Block.dfy`, `StaleRs.dfy`, `Assembler.dfy` | whole blocks with batched PC increments, memory and aborts, shifts and multiplies by R15, and the emitters in place | `BlockCorrect`, `StaleExact` |
| `Amd64.dfy` | flag capture in the amd64 recompiler | `FlagSettingCorrect` |
| `BlockTransfer.dfy`, `InlineTransfer.dfy`, `InlineSingle.dfy`, `Accesses.dfy` | LDM and STM with aborts, their inline form, that of LDR, STR, LDRB and STRB, and what these do to memory | `LoadAborted`, `StoreAborted`, `BlockTransferCorrect`, `SingleCorrect`, `SingleMeans` |
| `BlockCache.dfy` | the cache of recompiled blocks | `RunSound`, `RunFresh`, `ClearPageExact`, `StaleExactly` |
| `Modes.dfy`, `Exceptions.dfy`, `StatusWrites.dfy`, `LoadReturn.dfy` | modes, register banks, PSR writes, exceptions and the state their handlers start in, LDM that returns from them | `RunKeeps`, `ExceptionReturn`, `StatusInHandler`, `SpsrInHandler`, `MsrWrites`, `LoadSCompleted` |
| `Tlb.dfy`, `Permissions.dfy` | the address translation cache, and what the page tables permit | `Transparent`, `RunGood`, `WholePage`, `ClientPermits` |
| `I2c.dfy` | the I2C serialiser and the PCF8583 | `NeverBugs`, `WriteOnPins`, `ReadOnPins` |
| `Fragments.dfy`, `Reassembly.dfy` | the Access relay's fragmenter and reassembler | `SentExactlyOnce`, `FramesRoundTrip`, `TailTaken` |
| `DebugExpr.dfy`, `DebugValues.dfy` | the debugger's expression evaluator, and what its operators and names stand for | `Evaluates`, `BinaryText`, `TighterFirst`, `NameTexts`, `CheckAccepts` |
| `Blit.dfy` | the sprite blitter | `BlitSprite`, `PlacedExact`, `ConvertsChannels` |

Code that changes state in place is modelled by classes and methods with loops; each is proved equal to
a function of the old state, and the theorems are about those functions. Words are integers below 2^32
(bit vectors in `Modes.dfy`, where only masks are used). Clocks, pin levels, memory contents, queue
space, the rate limiter's and the socket's answers are parameters.

`dafny verify dfyconfig.toml` checks everything.

## Where the code falls short of what it promises

Each of these has a lemma with a concrete input, and a lemma that says for all inputs exactly when the code
is right.

| what fails | concrete input | exact condition |
|---|---|---|
| a 26-bit branch compiled in the fast form can carry out of the PC field and set the F bit | `FastBranchGoesWrong` | `BranchCorrectIff`, `FastBranchLimit` |
| `arm_opcode_needs_pc` does not look at Rs, so a shift or multiply by R15 can read an R15 whose increment is pending | `RsPcGoesWrong` | `StaleExact` |
| `codeblockpresent` is indexed by the page modulo 0x10000, so invalidating a page can leave another's stale code | `StaleAcrossWindows` | `ClearPageExact`, `StaleExactly` |
| one permission byte is cached for a small page that has four permission fields | `MixedLeaks` | `WholePage` |
| the return from an exception on a 26-bit configuration can change the flags | `WrapLosesFlags` | `ExceptionReturn` |
| clearing PROG32 can enter a mode that R15 cannot name | `AbortWithoutProg32` | `SetProg32Exact` |
| MRS to R15 in the 26-bit User mode clears I and F | `MrsClearsDisable` | `UserMrsExact` |
| the first MSR of the flags after reset enters the 32-bit Supervisor mode | `ResetMsr` | `MsrFlagsMode` |
| an unpadded last fragment of fewer than eight bytes is not taken by the relay | `TailLost` | `TailTaken` |
| `debugexpr_check` refuses expressions that evaluate | `CheckRefuses` | `CheckAccepts` |

## Model

| member | source | states |
|---|---|---|
| Flags.BySigns | src/arm_common.h:140-239 | the carry and overflow formulas on the operands' and result's words come down to their top bits |
| Flags.AddExact | src/arm_common.h:140-160 | N, Z, C and V of ADD are those of the exact sum |
| Flags.SubExact | src/arm_common.h:167-187 | N, Z, C and V of SUB are those of the exact difference, C being not-borrow |
| Flags.AdcExact | src/arm_common.h:194-214 | the flags of ADC are exact for all operands and both carries |
| Flags.SbcExact | src/arm_common.h:221-239 | the flags of SBC are exact for all operands and both carries |
| Flags.AdcChainExact | src/arm_common.h:194-214 | a chain of ADCS of any length computes the sum of the numbers, with the carry out |
| Flags.SbcChainExact | src/arm_common.h:221-239 | a chain of SBCS of any length computes the difference, with the borrow |
| Flags.MultiWordAdd | src/arm_common.h:140-214 | the values and flags of ADDS and then ADCS add numbers of any number of words modulo 2^(32n), the final C the true carry |
| Flags.MultiWordSub | src/arm_common.h:167-239 | those of SUBS and then SBCS subtract them, the final C the true not-borrow |
| Encoding.DataFields | src/arm.h:104-106 | a data-processing word put together from its fields is taken apart into the same ones |
| Encoding.OperandFields | src/arm_dynarec.c:519-694 | the shift amount and kind, Rs and Rm, the rotation and the eight bits of the second operand likewise |
| Encoding.TransferFields | src/arm_dynarec_ops.h:1172-1508 | P, U, B, W, L and the registers of single and block transfers likewise, in all the models of them |
| Encoding.ListedBit | src/arm_common.c:436-485 | a register is in a transfer's list exactly when its bit is set |
| Encoding.BranchField | src/arm_dynarec_ops.h:1509-1537 | a branch encoded with n words of signed offset goes by four times n |
| Shifter.ShifterValue | src/arm_dynarec.c:519-694 | LSL multiplies and LSR divides by 2^n, ASR divides the signed number, rounding down, ROR rotates, RRX rotates by one through C; with the carry and without it the value is the same |
| Shifter.ShifterCarry | src/arm_dynarec.c:519-625 | the carry out of the shifter is the last bit shifted out, if anything is shifted, by places in the field or in Rs |
| Shifter.ImmediateValue | src/arm_common.h:118-132 | an immediate is its eight bits rotated to the right by twice the field |
| Conditions.UnsignedOrder | src/arm_dynarec.c:420-441 | after comparing a with b: EQ and NE, CS and CC, HI and LS are =, !=, >=, <, >, <= of the unsigned numbers |
| Conditions.SignedOrder | src/arm_dynarec.c:420-441 | GE, LT, GT and LE are the order of the signed numbers, MI and PL the sign of the difference, VS and VC whether it is out of range |
| Conditions.OneFlag | src/arm_dynarec.c:420-441 | on any flags, not only those of a comparison, what each positive condition asks of them |
| Conditions.Opposites | src/arm_dynarec.c:420-441 | each odd condition is the opposite of the even one before; AL always holds and NV never |
| Conditions.ConditionMeans | src/arm_dynarec.c:420-441 | all sixteen conditions after a comparison are relations of the two numbers |
| Handlers.FlagBits | src/arm.h:115-118 | N, Z, C and V are bits 31, 30, 29 and 28 of the flag word |
| Handlers.OperandValue | src/arm_dynarec.c:626-694 | the second operand of every handler is the immediate, or Rm shifted as the opcode says |
| Handlers.ArithmeticMeans | src/arm_dynarec_ops.h:102-880 | ADD, ADC, SUB, SBC, RSB, RSC, CMP and CMN leave the exact result modulo 2^32 in Rd and nothing else; with S the flags are its sign, zero, carry or not-borrow, and signed overflow |
| Handlers.LogicalMeans | src/arm_dynarec_ops.h:22-1009 | AND, EOR, ORR, BIC, MOV, MVN, TST and TEQ bit by bit; with S, N and Z of the result, the operand's carry, and V as it was |
| Handlers.MultiplyMeans | src/arm_dynarec_ops.h:22-90 | MUL and MLA leave product, or product and sum, modulo 2^32, with S their N and Z; zero if Rd is Rm |
| Handlers.LongMultiplyMeans | src/arm_dynarec_ops.h:156-347 | UMULL, UMLAL, SMULL and SMLAL leave the 64-bit product, or product and sum, in the two registers, with S its N and Z |
| Handlers.ComparisonDecides | src/arm_dynarec_ops.h:22-1009 | after CMP a condition on the flag word it left is its relation between the two operands |
| Handlers.RunsIfRelated | src/arm_dynarec.c:1020-1035 | so an instruction after CMP runs if and only if the operands are in the relation |
| Handlers.AddStep | src/arm_dynarec_ops.h:202-243 | what ADDS or ADCS leaves, with the carry out on top, is the sum of the operands and the carry in |
| Handlers.SubStep | src/arm_dynarec_ops.h:254-292 | what SUBS or SBCS leaves is the difference less the borrow, with the borrow out |
| Handlers.MultiWordAdd | src/arm_dynarec_ops.h:202-243 | the handlers of ADDS and n-1 ADCS, other instructions that keep C between them, leave the sum of two n-word numbers modulo 2^(32n); the last C says whether it was reduced |
| Handlers.MultiWordSub | src/arm_dynarec_ops.h:254-292 | those of SUBS and n-1 SBCS leave the difference; the last C says that the first number is not the smaller |
| Handlers.PcOperand | src/arm.h:128-136 | R15 as an operand is the PC without the status bits |
| Handlers.PcWritten | src/arm_dynarec_ops.h:22-1009 | a result written to R15 without S moves the PC field to the word address four on and keeps the bits around it |
| Handlers.BranchMeans | src/arm_dynarec_ops.h:1509-1537 | B and BL move the PC by the signed offset and four within its field; R14 gets the return address |
| Recompiler.RecompiledIsModelled | src/codegen_arm64.c:1166-1326 | whatever the recompiler accepts is an opcode the handlers here cover |
| Recompiler.RunShift | src/codegen_arm64.c:563-604 | the emitted shift leaves the interpreter's shifter operand and nothing else |
| Recompiler.MergeMasks | src/codegen_arm64.c:614-635 | the two masks and the OR put exactly the host's flags into the flag word |
| Recompiler.RunFlags | src/codegen_arm64.c:614-635 | the flag code merges NZCV, or N and Z, into R15 or the PSR and touches nothing else |
| Recompiler.DataProcessingCorrect | src/codegen_arm64.c:1166-1326 | every accepted data-processing opcode leaves registers and flags as the handler does |
| Recompiler.MultiplyCorrect | src/codegen_arm64.c:1042-1070 | MUL and MLA likewise |
| Recompiler.MultiplyLongCorrect | src/codegen_arm64.c:1075-1106 | UMULL likewise, with both halves in the right order |
| Recompiler.BranchCorrectIff | src/codegen_arm64.c:1112-1160 | the emitted B or BL is the handler's branch if and only if R15 stays within its field |
| Recompiler.FastBranchLimit | src/codegen_arm64.c:1120-1135 | in the 26-bit modes the fast form is right exactly below the last two words |
| Recompiler.FastBranchGoesWrong | src/codegen_arm64.c:1120-1135 | a branch for which it sets the F bit |
| Recompiler.RecompileCorrect | src/arm_dynarec_ops.h:22-1009 | for every opcode accepted and every state, the emitted code leaves the register file and the flag word as the handler does, and memory alone |
| Block.ImmediateOrShiftSame | src/arm_dynarec.c:914-934 | without the PC among its fields an opcode's operands do not depend on it |
| Block.HandlerPcBlind | src/arm_dynarec.c:914-934 | unless `arm_opcode_needs_pc`, and with an Rs that is seen alike, a handler neither sees nor moves the PC |
| Block.RunPrelude | src/codegen_arm64.c:1376-1412 | cached R15 plus the pending increment is the interpreter's R15 plus four; cached R15 is exact where it is needed or nothing is pending, and how stale it is otherwise |
| Block.RunGuarded | src/codegen_arm64.c:1514-1550 | the flag test runs the body exactly when the condition, which is what `Conditions.ConditionMeans` says it is, holds and falls into what follows; an abort in the body leaves the block, a skipped body never does |
| Block.RunCall | src/codegen_arm64.c:1362-1374 | a call has the handler's effect on registers and memory; out of the block if and only if it aborts |
| Block.RunSingle | src/codegen_arm64.c:953-1033 | the shift and the inline code of a single transfer have the effect of the interpreter's load or store, in the registers and memory of the block |
| Block.HandlersExist | src/arm_dynarec.c:936-955 | handlers as the theorems about blocks ask for exist: no opcode is claimed by two of the models, and all inlined transfers are among those that may abort |
| Block.CompileCorrect | src/arm_dynarec.c:1075-1124 | compiling from any point of a block, with any pending increment, equals interpreting from there, registers, memory and aborts, where Rs = R15 does no harm |
| Block.BlockCorrect | src/arm_dynarec.c:1041-1124 | a compiled block of any length, loads and stores inline, is the interpretation of its instructions one by one, registers and memory, up to its end or its first abort, where R15 is right for the exception; Rs = R15 where it does no harm |
| Block.RsPcGoesWrong | src/arm_dynarec.c:914-934 | an instance: MUL by R15 after another instruction gives a different product from the interpreter's |
| StaleRs.FreeAgrees | src/arm_dynarec.c:1075-1124 | where Rs = R15 does no harm, compiled and interpreted stay in step from every state a block can be in |
| StaleRs.ResultsDiffer | src/arm_dynarec_ops.h:22-1009 | for every operation, shift and distance there are register contents on which two shift amounts that far apart give results that can be told apart |
| StaleRs.DataProcessingDiffers | src/arm_dynarec_ops.h:22-1009 | such results show in Rd, or in the Z flag of a compare |
| StaleRs.CarryDiffers | src/arm_dynarec.c:519-625 | whole turns against no turn show in the carry of a flag-setting logical operation |
| StaleRs.MultiplyDiffers | src/arm_dynarec_ops.h:22-100 | MUL and MLA by different R15s give different products unless Rd is Rm |
| StaleRs.LongDiffers | src/arm_dynarec_ops.h:120-350 | the long multiplies too, in the high half |
| StaleRs.AgreesMeans | src/arm_dynarec.c:1075-1124 | staying in step means that the handler does the same with the stale R15 |
| StaleRs.StaleDisagrees | src/arm_dynarec.c:914-934 | otherwise there is a state, given outright, in which compiled and interpreted part: in step, in a legal mode, and far enough into its page for the increments that are pending |
| StaleRs.StaleExact | src/arm_dynarec.c:914-934 | an instruction that `arm_opcode_needs_pc` lets through agrees from every state a block can be in, at any address, if and only if Rs is not R15, nothing is pending, the multiply gives zero, or a rotation without carry meets a multiple of 32 |
| Assembler.CodeBlock.GenerateShift | src/codegen_arm64.c:563-604 | appends the shift code, or nothing when it declines |
| Assembler.CodeBlock.GenNativeFlags | src/codegen_arm64.c:614-635 | appends the flag code |
| Assembler.CodeBlock.GenDataProcessing | src/codegen_arm64.c:1200-1326 | appends the code of an accepted opcode, or leaves the block as it was |
| Assembler.CodeBlock.GenMultiply | src/codegen_arm64.c:1042-1070 | the same for MUL and MLA |
| Assembler.CodeBlock.GenMultiplyLong | src/codegen_arm64.c:1075-1106 | the same for UMULL |
| Assembler.CodeBlock.RecompileOne | src/codegen_arm64.c:1166-1326 | the block grows by exactly what `Recompile` says |
| Assembler.CodeBlock.SingleTransfer | src/codegen_arm64.c:966-980 | appends the shift of a register offset and the transfer, or nothing when the shift is declined |
| Assembler.CodeBlock.GenerateCall | src/codegen_arm64.c:1352-1374 | native code or the call with R15 written back, and the pending skip patched to jump past it |
| Assembler.CodeBlock.GenerateIrqTest | src/codegen_arm64.c:1536-1550 | after a call, the exit for an abort, and the skip patched again to jump past that too |
| Assembler.CodeBlock.GenerateBody | src/arm_dynarec.c:1101-1104 | the two together append the whole body of an instruction |
| Assembler.CodeBlock.GenerateUpdatePc | src/codegen_arm64.c:1376-1383 | emits the pending increment and clears it |
| Assembler.CodeBlock.GeneratePcinc | src/codegen_arm64.c:1400-1412 | adds four, emitting at 124 |
| Assembler.CodeBlock.GenerateFlagTestAndBranch | src/codegen_arm64.c:1514-1534 | emits the test and remembers the skip |
| Assembler.CodeBlock.CompileOne | src/arm_dynarec.c:1085-1112 | one turn of the compile loop is one step of `Compile` |
| Assembler.CodeBlock.CompileBlock | src/arm_dynarec.c:1075-1124 | the loop leaves exactly `Compile` of the instructions |
| Amd64.Assembled | src/codegen_amd64.c:681-695 | the captured bytes, shifted and merged, are the flags in bits 31 to 28 |
| Amd64.MergedIn | src/codegen_amd64.c:697-708 | mask and OR put exactly those flags into the flag word |
| Amd64.CarryBit | src/codegen_amd64.c:637-659 | the OR or AND with a constant sets or clears exactly the carry |
| Amd64.SubFlags | src/codegen_amd64.c:661-680 | the host's borrow inverted, with SF, ZF and OF, is the guest's NZCV of a subtraction |
| Amd64.AddFlags | src/codegen_amd64.c:661-680 | the host's flags of an addition are the guest's, in either order of the operands |
| Amd64.RunFlags | src/codegen_amd64.c:661-709 | flag capture merges the host's flags, carry inverted or not, and touches nothing else |
| Amd64.RunShift | src/codegen_amd64.c:498-545 | the emitted shift leaves the interpreter's shifter operand in EAX |
| Amd64.RunDataProcReg | src/codegen_amd64.c:547-562 | the result of the operation on Rn and the operand goes to Rd, its flags stay in EFLAGS |
| Amd64.RunDataProcImm | src/codegen_amd64.c:563-584 | the same with a constant, in place or through a register |
| Amd64.CarryLater | src/codegen_amd64.c:618-659 | setting the constant carry after N and Z gives the flag word the interpreter gets by setting it before |
| Amd64.FlagSettingCorrect | src/codegen_amd64.c:1251-1535 | every flag-setting opcode accepted leaves registers and flag word as the handler does |
| Amd64.CodeBlock.GenNativeFlags | src/codegen_amd64.c:661-709 | appends the flag-capture code |
| Amd64.CodeBlock.GenCarryConstant | src/codegen_amd64.c:637-659 | appends the carry constant |
| Amd64.CodeBlock.GenLogicalImmediate | src/codegen_amd64.c:1431-1535 | operation, flags, and the carry exactly when the immediate is rotated |
| BlockTransfer.BelowMeans | src/arm_common.c:436-485 | the transfer order is exactly the listed registers, ascending |
| BlockTransfer.CountedSucceed | src/arm_common.c:278-345 | the transfers counted as done are those before the first fault |
| BlockTransfer.Core.LoadMultiple | src/arm_common.c:435-485 | the loop leaves `LoadOutcome`: the words before the first fault, the base, R15 |
| BlockTransfer.Core.StoreMultiple | src/arm_common.c:278-345 | the loops leave `StoreOutcome` and the memory of the words stored before the first fault |
| BlockTransfer.LoadAborted | src/arm_common.c:435-564 | at a fault: base by the CPU's rule even if it had been loaded, R15 not loaded, nothing from the faulting register on loaded |
| BlockTransfer.LoadOtherBank | src/arm_common.c:501-564 | a load into one bank leaves the other alone, listed or not, but for the base register |
| BlockTransfer.LoadCompleted | src/arm_common.c:435-485 | without a fault: every listed register holds its word, R15 branches, everything else keeps its value |
| BlockTransfer.StoredLast | src/arm_common.c:278-345 | the word of a transfer stays in its place unless a later one goes to the same place |
| BlockTransfer.StoredNowhere | src/arm_common.c:278-345 | a place that no transfer goes to keeps its word |
| BlockTransfer.OwnPlaces | src/arm_common.c:278-345 | without aliased host pages every transfer has a place of its own |
| BlockTransfer.StoredValueIs | src/arm_common.c:278-433 | what is stored: the register, R15 plus the CPU's constant, or the written-back base from the second word on |
| BlockTransfer.StoreAborted | src/arm_common.c:278-433 | at a fault: exactly the words before it are in memory, no other has changed, every register is as before, the base by the CPU's rule |
| BlockTransfer.StoreCompleted | src/arm_common.c:278-433 | without a fault: every listed register's word is in memory, no other has changed, and the base is written back |
| InlineTransfer.AddressesAgree | src/codegen_arm64.c:771-794 | in all four addressing modes the address code leaves the handlers' address, aligned, and their writeback value |
| InlineTransfer.CrossesTestMeans | src/codegen_arm64.c:816-820 | the carry test passes exactly for a transfer within one 1 KB region |
| InlineTransfer.OneRegion | src/codegen_arm64.c:816-826 | then no address wraps and all words share a page |
| InlineTransfer.InlineLoadCorrect | src/codegen_arm64.c:865-912 | the inline load is `arm_load_multiple`, base in the list and R15 included |
| InlineTransfer.InlineStoreCorrect | src/codegen_arm64.c:809-863 | the inline store is `arm_store_multiple`, registers and memory, with either writeback timing |
| InlineTransfer.InlineUnaliased | src/codegen_arm64.c:816-826 | a transfer that passes the boundary test has every word in a place of its own |
| InlineTransfer.BlockTransferCorrect | src/codegen_arm64.c:771-950 | every LDM and STM without the S bit, from addresses to both paths: registers, R15, memory and aborts are the interpreter's |
| InlineTransfer.Emitter.GenLoadMultiple | src/codegen_arm64.c:883-905 | the loop over the list appends `LoadCode` |
| InlineTransfer.Emitter.GenStoreMultiple | src/codegen_arm64.c:830-856 | the loops append `StoreCode`, the writeback in its place |
| InlineSingle.HostByteWritten | src/mem.h:226-239 | a byte written to host memory is that byte and no other |
| InlineSingle.RotationIs | src/codegen_arm64.c:703-706 | the shifts leave eight times the bottom two address bits |
| InlineSingle.RunAddress | src/codegen_arm64.c:982-1004 | pre- and post-indexed, up and down, with either kind of offset, the address is the interpreter's |
| InlineSingle.RunAccess | src/codegen_arm64.c:686-764 | the access and the rotation: data or memory as the interpreter has them; if it is refused and tested here, out of the block with every register as it was |
| InlineSingle.RunBase | src/codegen_arm64.c:1012-1026 | the base is written back as the interpreter does |
| InlineSingle.RunLast | src/codegen_arm64.c:1028-1033 | an abort tested late keeps the writeback and does not load Rd; the test loses no data |
| InlineSingle.SingleCorrect | src/arm_dynarec_ops.h:1172-1380 | every LDR, STR, LDRB and STRB that is compiled, in all addressing modes and with either base rule on an abort: registers, memory and aborts are the interpreter's |
| InlineSingle.Emitter.GenSingle | src/codegen_arm64.c:953-1040 | appends `Code` |
| Accesses.WordStored | src/mem.h:163-215 | a word stored is read back from its own place, and every other place reads as before |
| Accesses.FaultsBehindMmu | src/mem.h:163-239 | an access can fault only where the fast map has no entry for it, and then when the MMU refuses it |
| Accesses.WordLoaded | src/arm_dynarec_ops.h:1172-1277 | LDR loads what STR stored, rotated to bring the byte addressed to the bottom |
| Accesses.ByteLoaded | src/arm_dynarec_ops.h:1278-1380 | LDRB loads what STRB stored |
| Accesses.ByteOfWord | src/mem.h:181-198 | LDRB loads the bytes of a word stored with STR, lowest first |
| Accesses.SingleMeans | src/arm_dynarec_ops.h:1172-1380 | address, base, loaded register and memory of every single transfer, as sums; a refused one changes the base at most, by the CPU's rule |
| Accesses.TransferAddresses | src/arm_dynarec_ops.h:1381-1508 | the lowest address and the base written back of LDM and STM in the four modes |
| Accesses.ListedCount | src/arm_dynarec.c:410-417 | the words transferred are the bits set in the list |
| BlockCache.CompileSound | src/codegen_arm64.c:474-493 | reusing a ring slot leaves every live entry leading to code compiled for it |
| BlockCache.CompileHits | src/codegen_arm64.c:474-493 | a block just compiled is found |
| BlockCache.HitIsExact | src/codegen_arm64.c:379-403 | a hit names a slot compiled for exactly that PC and word size; the range check never fires, so chain and dispatch agree |
| BlockCache.ResetLeavesNone | src/codegen_arm64.c:441-455 | a reset leaves no live entry |
| BlockCache.PageHashes | src/codegen_arm64.c:457-472 | the hashes of a page are the 0x400 that are searched |
| BlockCache.ClearPageClears | src/codegen_arm64.c:457-472 | invalidating a page drops exactly its entries |
| BlockCache.ClearPageExact | src/codegen_arm64.c:457-472 | the cache stays fresh if and only if no other page shares the page's mark |
| BlockCache.StaleExactly | src/codegen_arm64.c:457-472 | a block that is found, when a page and then its own are invalidated, is found still and stale if and only if that is another page with the same mark; else it is gone |
| BlockCache.HitIsFresh | src/arm_dynarec.c:1041-1052 | what is found was compiled since its page was last invalidated |
| BlockCache.RunSound | src/codegen_arm64.c:441-493 | exact hits after every run of compilations, resets and invalidations |
| BlockCache.RunFresh | src/codegen_arm64.c:441-493 | nothing stale is found in any run within one window of 0x10000 pages |
| BlockCache.EmptyFresh | src/codegen_arm64.c:407-431 | the cache starts out fresh |
| BlockCache.StaleAcrossWindows | src/codegen_arm64.c:457-472 | a run across windows in which stale code is found |
| BlockCache.CodeCache.InitCodeBlock | src/codegen_arm64.c:474-493 | the cache becomes `Compile` of it |
| BlockCache.CodeCache.ResetCodeBlocks | src/codegen_arm64.c:441-455 | the loop is `Reset` |
| BlockCache.CodeCache.CacheClearPage | src/codegen_arm64.c:457-472 | the loop is `ClearPage` |
| BlockCache.CodeCache.Next | src/codegen_arm64.c:379-403 | the slot of a chain hit, or none when something is pending |
| Modes.SwitchKeeps | src/arm.c:78-163 | a change of mode moves no value: every register of every mode keeps it |
| Modes.SwitchShows | src/arm.c:78-163 | the new mode sees its own registers |
| Modes.WrittenInMode | src/arm.c:78-163 | a register written in one mode is seen in another exactly if they share it: R0-R7, R8-R12 outside FIQ mode, R13 and R14 of User and System |
| Modes.PointersLeadHome | src/arm.c:82-163 | `usrregs[c]` leads to User mode's register in every legal mode |
| Modes.SetUserSets | src/arm_common.c:539-552 | writing through it changes that register of User mode and no other |
| Modes.SwitchKeepsBits | src/arm.c:201-226 | N, Z, C, V, I and F survive every change between 26- and 32-bit modes |
| Modes.InvMeans | src/arm.c:201-226 | the invariant gives (reg[cpsr] & mmask) == mode and the right r15_mask |
| Modes.WriteR15Keeps | src/arm_common.h:312-349 | an S-set write of R15 keeps the invariant |
| Modes.CompareKeeps | src/arm_common.h:358-391 | TSTP, TEQP, CMPP and CMNP keep it |
| Modes.WriteCpsrKeeps | src/arm_common.h:402-439 | MSR CPSR keeps it |
| Modes.ExceptionKeeps | src/arm.c:521-572 | every exception keeps it, in all three regimes |
| Modes.RunKeeps | src/arm_common.h:312-439 | it holds after every step of every run with legal mode values, PROG32 being cleared only where a 26-bit mode corresponds |
| Modes.MrsReads | src/arm.c:917-925 | MRS reads the status bits and the mode, in the 26-bit modes from R15, and changes neither |
| Modes.UserStays | src/arm_common.h:312-439 | nothing User mode can execute, short of MRS to R15, changes the mode or the I and F bits |
| Modes.UserMrsExact | src/arm.c:917-925 | MRS to R15 from User mode keeps I and F if and only if the mode is the 32-bit one or they are clear |
| Modes.MrsClearsDisable | src/arm.c:917-925 | an instance in which they are not |
| Modes.ExceptionReturn | src/arm.c:521-572 | exception and return restore mode, R15 = link + 4 and the other SPSRs; N, Z, C, V, I, F if and only if a 26-bit PC field does not carry |
| Modes.ExceptionReturnValues | src/arm.c:521-572 | and every register of every mode but the handler's own R14 |
| Modes.WrapLosesFlags | src/arm.c:521-572 | an instance where it carries |
| Modes.WriteR15MovesNothing | src/arm_common.h:312-349 | an S-set write of R15 moves no register of any mode |
| Modes.WriteR15Alike | src/arm_common.h:312-349 | PC, PSR and mode after an S-set write of R15 depend on R15, PSR, SPSR and mode alone |
| Modes.LoadAndReturns | src/arm_common.c:501-553 | LDM with R15 and the S bit: the listed registers and the base go to the bank of the mode that executes it, no other register changes, PC, PSR and mode are those of an S-set write of R15, and the invariant holds |
| LoadReturn.LoadLowAgrees | src/arm_common.c:501-532 | the loads and the base agree with those of LDM without the S bit, up to the first fault |
| LoadReturn.LoadSAborted | src/arm_common.c:501-564 | at a fault: the registers of an aborted LDM, mode, PSR and banks as they were |
| LoadReturn.LoadSCompleted | src/arm_common.c:501-553 | without one: R0-R14 as a plain LDM leaves them in the mode that executes it, every other bank as it was, PC, PSR and mode of an S-set write of the loaded R15 |
| LoadReturn.LoadMultipleS | src/arm_common.c:501-564 | the loop with its abort exits computes `LoadS` |
| Modes.AbortWithoutProg32 | src/cp15.c:369-373 | PROG32 cleared in Abort mode breaks the invariant |
| Modes.SetProg32Exact | src/cp15.c:369-373 | clearing PROG32 keeps the invariant exactly where a 26-bit mode corresponds |
| Modes.ResetInv | src/arm.c:293-322 | reset establishes the invariant |
| Modes.MsrFlagsMode | src/arm_common.h:402-439 | MSR of the flags keeps the mode exactly when reg[16] names it |
| Modes.ResetMsr | src/arm.c:293-322 | so the first one after reset changes it |
| Modes.CopyRange | src/arm.c:78-163 | the bank-copying loops |
| Modes.PointRange | src/arm.c:118-163 | the loops that set `usrregs` |
| Exceptions.StatusInHandler | src/arm.c:521-572 | every exception, in all three regimes, disables IRQs, and FIQs too if they were disabled or it is one, and keeps N, Z, C and V |
| Exceptions.ModeInHandler | src/arm.c:521-572 | the mode is the exception's, or of a 26-bit processor Supervisor for Abort and Undefined |
| Exceptions.PcInHandler | src/arm.c:521-572 | the PC is the vector and R14 the return address, without the status bits when a 26-bit mode enters a 32-bit one |
| Exceptions.SpsrInHandler | src/arm.c:521-572 | the SPSR entered holds the old status bits and mode, in both 32-bit regimes; no other changes |
| Exceptions.RegistersInHandler | src/arm.c:521-572 | every register of every mode is as it was but for R14 of the mode entered |
| StatusWrites.UserWritesR15 | src/arm_common.h:312-349 | R15 with S from User mode: the PC, and in the 26-bit mode N, Z, C and V; the mode, I and F stay |
| StatusWrites.Privileged26WritesR15 | src/arm_common.h:312-349 | from a privileged 26-bit mode: all of R15, status and mode with it |
| StatusWrites.Privileged32WritesR15 | src/arm_common.h:312-349 | from a privileged 32-bit mode: the PC, with status and mode from the SPSR |
| StatusWrites.Compares26 | src/arm_common.h:358-391 | TSTP, TEQP, CMPP and CMNP in a 26-bit mode: status and mode of the result, in User mode its flags alone; the PC stays |
| StatusWrites.Compares32 | src/arm_common.h:358-391 | in a 32-bit mode: status and mode of the SPSR, in User mode nothing |
| StatusWrites.MsrWrites | src/arm_common.h:402-439 | MSR CPSR: the flags if the field is named, I, F and the mode if named by a privileged mode, nothing else; the mode is that which reg[16] names |
| StatusWrites.SpsrWrites | src/arm_common.h:471-485 | MSR SPSR: the fields named, in the SPSR of the mode, if it has one |
| StatusWrites.JumpMoves | src/arm_dynarec_ops.h:22-1009 | R15 without S: the PC moves, status and every other register stay |
| Modes.Arm.UpdateMode | src/arm.c:78-232 | the processor becomes `Switch` of it |
| Modes.Arm.SetR15 | src/arm_common.h:312-349 | becomes `WriteR15` of it |
| Modes.Arm.ComparePsr | src/arm_common.h:358-391 | becomes `CompareRd15` of it |
| Modes.Arm.SetCpsr | src/arm_common.h:402-439 | becomes `WriteCpsr` of it |
| Modes.Arm.ReadCpsr | src/arm.c:917-925 | becomes `Mrs` of it |
| Modes.Arm.Raise | src/arm.c:521-572 | becomes `Exception` of it, the state that the lemmas of `Exceptions` are about |
| Permissions.ClientPermits | src/cp15.c:583-611 | for a page found in a client domain: User writes with AP 3 alone, User reads with AP 2 or 3 or, with AP 0, the ROM bit alone, Supervisor writes unless AP is 0, Supervisor reads also with exactly one of S and R; the rest are permission faults |
| Permissions.DomainsPermit | src/cp15.c:662-725 | a manager domain permits everything, the two others nothing |
| Permissions.CachePermits | src/mem.h:129-144 | the four equivalences hold of the cached translation wherever the entry is exact |
| Permissions.CacheDomains | src/mem.h:129-144 | and so do those of the other domains |
| Permissions.DomainBits | src/cp15.c:619-625 | the access of a domain is its two bits of register 3 |
| Permissions.FirstLevelEntry | src/cp15.c:651-654 | the first-level descriptor is the table's entry for the megabyte |
| Permissions.FrameFound | src/cp15.c:656-718 | sections, large and small pages: what is found keeps the high bits of the descriptor and the low bits of the address, with the permission field of that quarter; and what is not found |
| Permissions.FaultReported | src/cp15.c:725-731 | a data access that faults leaves its address, the fault and the domain in the fault registers; nothing else changes them |
| Permissions.TablesBank | src/cp15.c:375-450 | which bank of RAM the tables are read from, by their physical address |
| Tlb.AddInRing | src/cp15.c:326-338 | live entries are in the ring |
| Tlb.FlushLeavesNone | src/cp15.c:139-151 | so a flush leaves none |
| Tlb.WalkSame | src/cp15.c:635-731 | within a page the walk has one outcome where the permission fields agree |
| Tlb.FillExact | src/cp15.c:635-731 | a new entry says of every access to its address what the walk says |
| Tlb.MaskSays | src/cp15.c:292-324 | each permission bit is set exactly when the walk would not fault |
| Tlb.FillCoherent | src/cp15.c:635-731 | filling keeps all entries exact for the sub-page that filled them |
| Tlb.ControlCoherent | src/cp15.c:353-373 | a control write that does not flush changes no translation |
| Tlb.UniformExact | src/cp15.c:662-696 | where a page's permission fields agree its entry is exact at every address of the page |
| Tlb.TranslateIsWalk | src/mem.h:129-144 | where the entry is exact the cached translation is the walk |
| Tlb.WholePage | src/cp15.c:662-696 | a live entry is right for its whole page if and only if the permission fields agree or do not matter |
| Tlb.MixedLeaks | src/cp15.c:662-696 | a page on which a user access is let through that the walk refuses |
| Tlb.StepGood | src/cp15.c:346-530 | every step, also an access while the tables are dirty, keeps live entries in the ring and, after a flush, exact |
| Tlb.RunGood | src/cp15.c:346-530 | after every run whatsoever live entries are in the ring, and exact unless the tables have changed since the last flush |
| Tlb.GoodMeans | src/cp15.c:635-731 | that is: named in the ring, and each permission bit and frame what the walk says |
| Tlb.StepTransparent | src/cp15.c:346-530 | every step keeps the cache coherent and answers as a machine without one |
| Tlb.Transparent | src/cp15.c:346-530 | every run in which tables change only before a flush has the outcomes, and ends with the fault and control registers, of a machine that walks on every access |
| Tlb.ResetGood | src/cp15.c:234-268 | reset establishes this |
| Tlb.BuildMask | src/cp15.c:292-324 | the loops compute `PermMask`, whose bits are by `MaskSays` and `ClientPermits` those of the access rules |
| Tlb.Translator.Flush | src/cp15.c:139-151 | the loop is `FlushFrom` |
| Tlb.Translator.Add | src/cp15.c:326-338 | the cache becomes `AddEntry` of it |
| Tlb.Translator.Lookup | src/cp15.c:635-731 | outcome and cache are `Translate`, whose outcomes `CachePermits` gives by AP, S and R |
| I2c.Clocked | src/cmos.c:662-868 | the switch on the state is `OnRise`, `OnFall` or idling |
| I2c.Serdes.Change | src/cmos.c:628-872 | a change of the pins is `React` to the edge it makes |
| I2c.SoundStep | src/cmos.c:662-868 | every change of the pins keeps the invariant of the "Bug" branches |
| I2c.NeverBugs | src/cmos.c:662-868 | no sequence of pin levels reaches a "Bug" branch |
| I2c.NeverBugsFromReset | src/cmos.c:879-900 | in particular from reset |
| I2c.PinsAreEvents | src/cmos.c:628-660 | the machine reacts only to starts, stops and clock edges |
| I2c.ReceiveByte | src/cmos.c:780-857 | eight clocked bits are the byte, most significant first, and it is acknowledged |
| I2c.StoredAt | src/cmos.c:367-392 | the last byte written to a register stays there |
| I2c.StoredElsewhere | src/cmos.c:367-392 | every other register keeps its value |
| I2c.WriteTransaction | src/cmos.c:367-452 | START, 0xA0, r, any n bytes, STOP: byte i in register (r + i) mod 256, nothing else changed, the bus at rest |
| I2c.SendByte | src/cmos.c:799-822 | the chip's byte is on the data line bit by bit, asked for at the first falling edge |
| I2c.BytesReadAre | src/cmos.c:400-413 | byte i read is register (r + i) mod 256, the time for registers 1 to 6 |
| I2c.ReadTransaction | src/cmos.c:400-413 | a repeated-start read of any m bytes puts exactly those on the line, and changes nothing but the time registers |
| I2c.SamplesAreEvents | src/cmos.c:628-660 | what the data line shows at each rising clock depends only on the events |
| I2c.PreamblePulses | src/cmos.c:662-868 | 28 clock pulses come before the first byte read |
| I2c.ReadOnPins | src/cmos.c:628-872 | the read for any pin levels that make its events: after 28 pulses i2cdata shows the wanted registers bit by bit |
| I2c.ReadWave | src/cmos.c:628-872 | and for a waveform that always exists |
| I2c.WaveSpells | src/cmos.c:628-660 | levels that move SDA only while SCL is low make the intended events |
| I2c.WriteOnPins | src/cmos.c:628-872 | the write transaction for any pin levels that make its events |
| I2c.WriteWave | src/cmos.c:628-872 | and for a waveform that always exists |
| Fragments.PiecesTile | src/broadcast_relay.c:1115-1210 | the fragments tile the datagram: no gap, no overlap, offsets in eights, More Fragments on all but the last, and their number |
| Fragments.TilesGlue | src/broadcast_relay.c:1115-1210 | put together they are the datagram |
| Fragments.FoldIs | src/broadcast_relay.c:985-1000 | folding keeps the sum modulo 65535 |
| Fragments.IpChecksum | src/broadcast_relay.c:985-1000 | the loops compute `Checksum` |
| Fragments.HeaderVerifies | src/broadcast_relay.c:1138-1179 | the header a receiver gets adds up to all ones |
| Fragments.ParseFrame | src/broadcast_relay.c:1723-1780 | a frame, padded or not, is read back as the fragment it was made from |
| Fragments.CutOne | src/broadcast_relay.c:1115-1207 | header and payload are put together as the slice of the datagram |
| Fragments.InjectFragmented | src/broadcast_relay.c:1046-1218 | emits the frames of all fragments, as far as accepted, and none when there is too little space |
| Reassembly.ExpireSound | src/broadcast_relay.c:1503-1514 | expiry frees exactly the slots that timed out |
| Reassembly.ClaimedSound | src/broadcast_relay.c:1521-1554 | claiming keeps slots distinct and touches only the one claimed |
| Reassembly.AbsorbSound | src/broadcast_relay.c:1572-1683 | whatever the guest sends, no two slots in use share an identity |
| Reassembly.RunSound | src/broadcast_relay.c:1572-1683 | in every run |
| Reassembly.RoomLeft | src/broadcast_relay.c:1521-1554 | fewer than four open datagrams leave a slot free |
| Reassembly.TakeRefines | src/broadcast_relay.c:1572-1683 | the four slots do what unlimited storage would do |
| Reassembly.RunRefines | src/broadcast_relay.c:1572-1683 | in every orderly run, dropping nothing |
| Reassembly.SentExactlyOnce | src/broadcast_relay.c:1572-1683 | under any interleaving a datagram whose fragments all arrive is sent exactly once with exactly its bytes, an incomplete one not at all |
| Reassembly.RoundTrip | src/broadcast_relay.c:1046-1218 | every payload of 1473 to 65507 bytes comes back from its fragments unchanged, at any times within the timeout |
| Reassembly.FramesReceived | src/broadcast_relay.c:1689-1783 | frames, padded to be looked at, reach the reassembler as the fragments they were made from |
| Reassembly.FramesRoundTrip | src/broadcast_relay.c:1046-1218 | the emitted frames, sent back, give exactly one datagram with the payload, for the right port |
| Reassembly.TailLost | src/broadcast_relay.c:1719-1783 | 1473 bytes leave a frame that is not taken |
| Reassembly.RoutedFrame | src/broadcast_relay.c:1719-1783 | a fragment's frame reaches the reassembler exactly when data and padding make eight bytes |
| Reassembly.TailTaken | src/broadcast_relay.c:1719-1783 | all unpadded frames of a datagram do, if and only if its tail is not one to seven bytes |
| Reassembly.SocketChosen | src/broadcast_relay.c:1603-1612 | a datagram goes by its destination port if that is an Access+ port, else by its source port, and only with a socket |
| Reassembly.Reassembler.Lookup | src/broadcast_relay.c:1484-1497 | the first slot that holds the datagram |
| Reassembly.Reassembler.ExpireAll | src/broadcast_relay.c:1503-1514 | the loop is `Expire` |
| Reassembly.Reassembler.ClaimSlot | src/broadcast_relay.c:1521-1554 | the known slot, else a free one, else the oldest |
| Reassembly.Reassembler.TxFragment | src/broadcast_relay.c:1572-1683 | the relay becomes `Absorb` of it |
| DebugExpr.ScanDigits | src/debugexpr.c:150-190 | the digits of a number, decimal or hexadecimal, are read back as it |
| DebugExpr.NumberReads | src/debugexpr.c:150-190 | in each of the three spellings |
| DebugExpr.NameReads | src/debugexpr.c:199-266 | a register, flag or CPSR name is read back |
| DebugExpr.OperatorNext | src/debugexpr.c:108-126 | an operator is found at its own level and at no tighter one |
| DebugExpr.ParseSame | src/debugexpr.c:77-98 | blanks before an operand do not matter |
| DebugExpr.Parses | src/debugexpr.c:335-645 | the text of a tree, before any text that cannot continue it, yields the tree's value and leaves that text |
| DebugExpr.EvalWithin | src/debugexpr.c:335-345 | within the nesting limit the nesting does not matter |
| DebugExpr.EvaluatesAt | src/debugexpr.c:649-692 | a printed tree, with operators as `DebugValues` gives them, evaluates to its value or first error, the nesting limit among the errors |
| DebugExpr.Evaluates | src/debugexpr.c:649-692 | within the limit: to its value modulo 2^32, by the operators' meaning in `BinaryText` and `UnaryText`, or its first error from left to right |
| DebugExpr.EvalAtZero | src/debugexpr.c:199-303 | with every operand zero a tree has a value if and only if no divisor in it is zero |
| DebugExpr.CheckAccepts | src/debugexpr.c:707-711 | the check accepts an expression if and only if no divisor in it is zero when everything reads as zero |
| DebugExpr.CheckRefuses | src/debugexpr.c:707-711 | an instance: an expression that evaluates and is refused |
| DebugValues.OperatorComputes | src/debugexpr.c:387-645 | each operator, told by its characters: arithmetic modulo 2^32, quotient and remainder, shifts by any number of places, bits, unsigned comparisons, truth values |
| DebugValues.BinaryText | src/debugexpr.c:387-645 | the text of two operands with an operator between them evaluates to that, or to the operands' first error |
| DebugValues.RankIs | src/debugexpr.c:387-645 | each operator has the rank that its characters say, from `or`, the loosest, to product, quotient and remainder, the tightest |
| DebugValues.TighterFirst | src/debugexpr.c:387-645 | without parentheses the operator of higher rank is done first |
| DebugValues.LeftFirst | src/debugexpr.c:387-645 | of equal ranks the left one is |
| DebugValues.UnaryText | src/debugexpr.c:335-385 | !, ~ and - before an operand: truth, bits, and arithmetic modulo 2^32 |
| DebugValues.NameTexts | src/debugexpr.c:191-266 | r0 to r15, sp, lr and pc are the registers 0 to 15, 13, 14 and 15, n, z, c and v bits 31 to 28 of the CPSR |
| DebugExpr.Parser.SkipSpace | src/debugexpr.c:77-83 | the cursor moves past the blanks |
| DebugExpr.Parser.Accept | src/debugexpr.c:88-126 | takes a token exactly when it matches, and says where the cursor is left |
| DebugExpr.Parser.Number | src/debugexpr.c:150-190 | the loop is `ParseNumber`; the depth is as before |
| DebugExpr.Parser.Identifier | src/debugexpr.c:199-266 | the loop is `ParseName` |
| DebugExpr.Parser.Expression | src/debugexpr.c:619-645 | value, cursor and first error are those of `ParseExpr`, and the depth is restored on every path |
| DebugExpr.Parser.Level | src/debugexpr.c:387-617 | the same for the binary levels |
| DebugExpr.Parser.UnaryOperand | src/debugexpr.c:335-385 | the same for unary operators |
| DebugExpr.Parser.Primary | src/debugexpr.c:305-333 | the same for operands |
| DebugExpr.Parser.Reference | src/debugexpr.c:271-303 | the same for memory references |
| DebugExpr.Calculate | src/debugexpr.c:649-692 | the whole evaluation is `Evaluate` |
| Blit.WidenChannel | src/accelerators.c:368-381 | replication fills eight bits with the channel and its own top bits |
| Blit.NarrowWiden | src/accelerators.c:345-381 | widening loses nothing and keeps both endpoints |
| Blit.RoundTrip565 | src/accelerators.c:383-406 | a 5:6:5 pixel comes back unchanged from 32 bits |
| Blit.ConvertsChannels | src/accelerators.c:300-406 | between any two formats red, green and blue go to their places, whatever is in the bits above them |
| Blit.FitKeeps | src/accelerators.c:345-365 | by way of eight bits a channel is exactly cut to its top bits, or replicated into the bits it gains |
| Blit.ConvertedSame | src/accelerators.c:832-837 | with one format the bytes are copied |
| Blit.PixelsFloor | src/accelerators.c:755-758 | positions in OS units are rounded down to pixels, negative ones too |
| Blit.PlotRectExact | src/accelerators.c:748-788 | the rectangle is exactly the pixels in both the window and the y-flipped sprite, empty exactly when there are none |
| Blit.SpriteUpright | src/accelerators.c:748-813 | a pixel shows the sprite's column as far from its left edge and the row as far from its bottom row, sprites being stored top row first |
| Blit.PlacedExact | src/accelerators.c:748-788 | the rectangle of a plot placed in OS units is exactly the pixels of the window whose columns and rows lie within the sprite there |
| Blit.ConvertRun | src/accelerators.c:821-860 | a run writes the converted bytes of its pixels and no others |
| Blit.RunWanted | src/accelerators.c:790-813 | what a run puts at a byte is the conversion of that pixel's source, wherever the run began |
| Blit.BlitRow | src/accelerators.c:931-962 | a row, split into page runs in any way, is drawn pixel by pixel |
| Blit.MarkRowsDirty | src/accelerators.c:728-746 | exactly the pages that hold a byte of the rows are marked dirty |
| Blit.BlitSprite | src/accelerators.c:874-974 | on success each covered pixel holds its source pixel converted, every other byte is unchanged, every change is in a dirty page; a plot that fails has drawn exactly the pixels before the first that cannot be read, row by row, and marked no page |

## Left out

- Machine code: instruction encodings, instruction-cache maintenance and memory protection; the recompilers are modelled on abstract hosts.
- `src/codegen_x86.c`: the third recompiler.
- Amd64: only the flag-setting cases; its block compiler and memory opcodes repeat the AArch64 shape.
- Halfword and signed-byte transfers, SWP, and the user-mode forms LDRT and STRT: they are not recompiled, and are calls of an arbitrary handler here.
- The `RPCEMU_JIT_DENY` list, instruction counting, and the chaining of blocks at their end.
- Block.CompileCorrect: what a handler does that is not modelled is an arbitrary function of registers and memory, devices included in the latter; entries that slow accesses add to the fast maps are not modelled.
- Block.BlockCorrect: for blocks whose branches are safe (`BranchCorrectIff`), whose R15 does not carry into the flags, and in which Rs = R15 does no harm (`StaleExact`).
- The handlers of SWI, coprocessor and PSR-transfer opcodes in blocks: they are an arbitrary function there; `Modes.dfy` models the PSR transfers.
- BlockTransfer.LoadCompleted: the form with R15 and the S bit, which restores the PSR, is in `LoadReturn.dfy`.
- BlockCache.RunFresh: counts invalidations of a page; which writes cause one is decided by the fast memory maps, which are not modelled.
- Reserved mode numbers: the model banks them as User mode, as the source does after its debugger has halted the machine, and claims nothing more of them; MRC to R15 is not modelled, and MRS to R15 is not among the steps of a run.
- Tlb: the fast host-pointer maps, the disabled MMU, and the physical memory behind the tables (an arbitrary function).
- I2c: saving the CMOS file, the calendar arithmetic of the clock, and the serialiser fields that are only logged; the memory-module ROM is modelled as a slave but no transaction with it is stated; in the transactions the master releases the data line where the chip drives it.
- Relay: sockets, interface choice, rate buckets, and unfragmented traffic.
- Reassembly.SentExactlyOnce: one datagram per identity in a run that keeps the order, at most four open, none timed out, rate and socket permitting; a retransmission that restarts a datagram is covered by `Absorb` but not by this statement.
- DebugExpr.Evaluates: for the text this project prints (blanks around binary operators, parentheses where needed); other spellings of the same tree are covered by the parser's model but not by the statement.
- DebugValues.NameTexts: for names in lower case; the model of the parser lowers other spellings as the source does.
- Blit.BlitSprite: for a stride that holds a row of the screen, as accelerators.c:607-609 computes it; positions are unbounded integers; guest memory is not changed by the plot, so a sprite that lies in the framebuffer it is drawn to is not covered; colour channels are added where the source ORs them, since they do not overlap.
- Sprite lookup, plot classification and statistics, disassembly, save states, settings and the CD-ROM.
