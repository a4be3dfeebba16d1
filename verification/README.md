# Models and proofs for three pieces of the WebKit tree

Three code paths are modelled here and proved correct with Dafny.

1. **The traditional-ARM assembler with an inline constant pool.** A buffer of
   instruction words receives loads of constants that do not fit an instruction. The
   constants wait in a pool, the loads carry a provisional tag, and the pool has to be
   written into the code before the first waiting load gets out of its 12-bit reach. It
   is then jumped over by a barrier branch, aligned to eight bytes, and the loads are
   patched. Jumps are such loads of `pc`; they can be linked before or after their slot is
   placed, and the final copy turns them into branches where they reach. On top of this
   come immediate synthesis and address synthesis.
2. **The keyword lookup generator**, a small compiler: keywords go into a trie, chains are
   coalesced, children are ordered by weight, and nested `if` / `else if` code with
   multi-character comparisons is printed.
3. **CRC-32 and the PNG comment splice** of the pixel dumps.

The main results are these.

- *Meaning is preserved over whole runs.* For every sequence of assembler calls, every
  processor, load address and start state, entered at its first word or at any label handed
  out, running the finished image does what the program asked for does, where a constant
  load simply yields its constant (`WholeRun.MeaningPreserved`). Nothing but instructions
  and barriers is ever executed (`WholeRun.NothingElseExecuted`).
- *Linked jumps are resolved, and exactly when.* The final loop rewrites near jumps as
  branches, whatever register they load, so the image resolves every linked jump of a run
  if and only if each of them loads pc, asks for the pool, or is out of a branch's range
  (`ExecutableCopy.ImageHolds`, with a losing input in `OtherLoadBecomesBranch`). The
  meaning theorems ask for that condition.
- *The pool is shared and aligned.* Over every run no two reusable entries of the pending pool
  are equal (`Sharing.RunIsDistinct`), a put adds to the pool exactly when no open entry holds
  its constant (`Sharing.PutShares`), and each flushed pool starts on an 8-byte boundary right
  behind the code (`ConstantPool.FlushPlaces`). The padding of `align` is the identity of the
  processor, and finished code passes over it unchanged (`AlignRuns.AlignExecutes`).
- *Deadlines are met.* In every state between calls, also when the distance counter is
  stale or negative, a flush finds every waiting load in reach
  (`ConstantPool.DeadlineSafety`).
- *The distance is true, and exactly when.* After a put of a constant the counter is the
  real distance if and only if the pool was empty before, or the counter was real and the
  put had no need to flush (`Tracking.PutConstantTracks`); no other call ever spoils it
  (`Tracking.CallTracks`), so it is real all through a run if and only if the run never
  puts a constant while the pool is full (`Tracking.TrackedIffNeverFull`).
- *The object is the model.* The classes `CodeBuffer`, `PooledBuffer`, `ArmAssembler`,
  `JumpList` and the trie's `Node` are written in place and loop as the source does, and
  each method is proved to do what the corresponding function does to the object's value;
  every run of a session is a run of the assembler (`Assembler.RunApplies`).
- *Immediates and addresses.* `getOp2` and `genInt` are sound and complete, `moveImm` is
  right for all 2^32 words, and each transfer accesses exactly the address it should for
  every signed 32-bit offset, if and only if the scratch register is not needed otherwise.
  `MacroRuns` carries these into finished machine code: whatever was called before and
  whatever is called afterwards, where the machine comes to a move or a transfer it goes on
  behind it with the register set or the access made.
- *The keyword code is a table lookup*, for every keyword list, weights and input
  (`KeywordLookup.GeneratedCodeIsSearch`, `KeywordLookup.GeneratedCodeFindsWords`).
- *The checksum is polynomial division*: message times x^32, register preset to ones, equals
  quotient times generator plus remainder, and the checksum is that remainder, the only one
  there is (`CrcDivision.CrcIsDivision`, `CrcDivision.RemainderIsCrc`). The spliced PNG
  parses as the old one with a `tEXt` chunk behind `IHDR` (`Png.SpliceParses`), and it is
  what comes out exactly if the device takes every write whole (`Png.PrintPNG`).

Reading order: `ArmEncoding`, `ConstantPool`, `Trace`, `Session`, `ExecutableCopy`,
`Execution`, `WholeRun`; then `Masks`, `PoolProperties`, `AssemblerBuffer`, `PoolBuffer`,
`Assembler`, `Tracking`, `Sharing`, `JumpList`; then `Immediates`, `WordBits`, `ArmMachine`,
`MacroOps`, `Addressing`, `MacroRuns`, `AlignRuns`; then `KeywordTrie`, `KeywordNodes`,
`KeywordOrder`, `KeywordCode`, `KeywordLookup`; then `Crc`, `Polynomials`, `CrcDivision`,
`Png`.

How things are represented. Code is a sequence of 32-bit words, kept as numbers with bit
fields read by division; only immediates and the CRC use bit vectors. A buffer's positions
are word indices in its value and byte offsets in the objects, as in the source. `Trace`
remembers, beside the buffer, which instruction stands where and where its constant is;
it is used in specifications only. In the meaning theorems the behaviour of ordinary
instructions, of conditions and of register writes is a parameter (`Cpu`), so the theorems
hold for any of them; `ArmMachine` is one such processor, for the instructions the macro
operations emit.

Four quirks of the pool are kept as written and show up in the statements: a flush inside
a put of a constant comes after the reset test, so the distance goes stale
(`PoolProperties.DistanceGoesStale`); `m_lastConstDelta` survives a flush; `isAligned` may
flush; the last flush has no barrier. The header comment says that the pool is flushed when
no space remains for the next instruction. The code keeps to that while the distance is
real (`Tracking.TestIsEarly`); once a put had to flush, each further put of a constant
flushes again, for one waiting load, although nearly all space remains
(`Tracking.StaleFlushesAgain`).

## Model

| member | source | states |
|---|---|---|
| ArmEncoding.PatchThenRead | Source/JavaScriptCore/assembler/ARMAssembler.cpp:37-50 | a load tagged with a slot and patched against a pool reads exactly that slot, also one word ahead where the offset is negative; condition and register survive |
| ArmEncoding.TagThenIndex | Source/JavaScriptCore/assembler/ARMAssembler.h:724-729 | the tag put into a load is the index read back, and marks the load as pending |
| ArmEncoding.PlacedLoadFields | Source/JavaScriptCore/assembler/ARMAssembler.h:688-705 | a placed load reads the word at its distance, for every distance in reach |
| ArmEncoding.BranchFields | Source/JavaScriptCore/assembler/ARMAssembler.h:859-864 | a branch word in range goes where it was aimed and keeps its condition, for both signs of the 24-bit field |
| ArmEncoding.ReachIsExact | Source/JavaScriptCore/assembler/ARMAssembler.cpp:363-368 | a distance is in range exactly if some branch word has it |
| ConstantPool.DeadlineSafety | Source/JavaScriptCore/assembler/AssemblerBufferWithConstantPool.h:276-309 | in every valid state, stale or negative distance included, a flush with or without barrier finds every waiting load within its 12-bit offset, and the pool holds at most 510 words |
| ConstantPool.WithPool | Source/JavaScriptCore/assembler/AssemblerBufferWithConstantPool.h:280-300 | the code in front is untouched, the pool stands at its aligned start, the barrier right behind the code |
| ConstantPool.FlushPlaces | Source/JavaScriptCore/assembler/AssemblerBufferWithConstantPool.h:276-309 | by lengths and words alone: a flushed pool is the end of the code, starts on an 8-byte boundary at most one word behind the code and the barrier, the padding is the undefined word, the barrier jumps to the end, other words and the counters stay |
| ConstantPool.WorthFlushingIff | Source/JavaScriptCore/assembler/AssemblerBufferWithConstantPool.h:215-220 | the unforced flush happens exactly when the constants fill more than 60% of 2048 bytes |
| ConstantPool.PatchLoads | Source/JavaScriptCore/assembler/AssemblerBufferWithConstantPool.h:302-306 | exactly the waiting loads are patched, every other word stays |
| ConstantPool.AppendKeepsValid | Source/JavaScriptCore/assembler/AssemblerBufferWithConstantPool.h:173-178 | an instruction put after the space test keeps every waiting load in time |
| ConstantPool.PutLoadKeepsValid | Source/JavaScriptCore/assembler/AssemblerBufferWithConstantPool.h:249-274 | a load put with its constant, shared or new, keeps the invariant from every valid state |
| ConstantPool.FlushIfNoSpaceFor | Source/JavaScriptCore/assembler/AssemblerBufferWithConstantPool.h:311-318 | after the test there is room for the instruction |
| ConstantPool.EnsureSpace | Source/JavaScriptCore/assembler/AssemblerBufferWithConstantPool.h:320-327 | after the test there is room for instructions and constants |
| ConstantPool.FindReusable | Source/JavaScriptCore/assembler/AssemblerBufferWithConstantPool.h:257-264 | the first reusable slot of equal value, and none only if there is none |
| Sharing.PutShares | Source/JavaScriptCore/assembler/AssemblerBufferWithConstantPool.h:249-274 | a reusable constant that an open entry of the pool holds adds nothing to the pool, and the load is tagged with such an entry; any other gets the next entry, the only change; the pool is the pending one unless that is full |
| Sharing.RunIsDistinct | Source/JavaScriptCore/assembler/AssemblerBufferWithConstantPool.h:257-268 | over every run, links included, no two reusable entries of the pending pool hold the same value |
| Trace.FlushKeepsInv | Source/JavaScriptCore/assembler/AssemblerBufferWithConstantPool.h:276-309 | after a flush every load reads the constant it was emitted with, from its slot in the code, and control still falls from each instruction to the next, over the pool |
| Trace.AppendKeepsInv | Source/JavaScriptCore/assembler/AssemblerBufferWithConstantPool.h:249-274 | an appended instruction joins the program at its place; slots are shared only between reusable loads of equal value |
| Trace.LinkKeepsItem | Source/JavaScriptCore/assembler/ARMAssembler.h:769-774 | linking one jump leaves every other instruction and the value of every other load as it was |
| Trace.LinkKeepsInv | Source/JavaScriptCore/assembler/ARMAssembler.h:769-774 | linking at any time, slot pending or placed, keeps the whole invariant |
| Session.LinkJumpHitsSlot | Source/JavaScriptCore/assembler/ARMAssembler.h:707-715 | the word linkJump writes is the one slot its own load will read, told apart by the tag bit |
| Session.JumpHasSlot | Source/JavaScriptCore/assembler/ARMAssembler.h:769-774 | every recorded jump has a writable slot at every later point of every run |
| Session.ReservedLoadStays | Source/JavaScriptCore/assembler/ARMAssembler.h:669-675 | after its reservation the load of a branch target flushes nothing, so the recorded offset is the load's |
| Session.DoBranchKeeps | Source/JavaScriptCore/assembler/ARMAssembler.h:669-675 | a jump emitted at any point is recorded at the position of its own load |
| Session.DoFlushBehindJumpKeeps | Source/JavaScriptCore/assembler/AssemblerBufferWithConstantPool.h:215-220 | a flush without barrier where control cannot arrive keeps the run invariant |
| Session.DoLabelKeeps | Source/JavaScriptCore/assembler/ARMAssembler.h:655-659 | a label names the place where control goes on with the next instruction, barriers included |
| ExecutableCopy.RelocateOwner | Source/JavaScriptCore/assembler/ARMAssembler.cpp:357-373 | after one round a linked jump leads to its target exactly if it loads pc, asks for the pool or is out of range |
| ExecutableCopy.RelocateStands | Source/JavaScriptCore/assembler/ARMAssembler.cpp:357-373 | a linked jump without the pool bit and within 24 bits becomes a branch with the same condition, any other a load of the absolute address of its target; an unlinked one is unchanged; no word but the jump and its slot is written |
| ExecutableCopy.OtherLoadBecomesBranch | Source/JavaScriptCore/assembler/ARMAssembler.cpp:360-369 | a failing input: a near linked load of r0 without the pool bit loses its target |
| ExecutableCopy.RelocateOther | Source/JavaScriptCore/assembler/ARMAssembler.cpp:357-373 | a round of the loop leaves every other instruction and load as it was |
| ExecutableCopy.JumpIsReadable | Source/JavaScriptCore/assembler/ARMAssembler.h:688-705 | what the reading code asserts holds in every round of the final loop of every run |
| ExecutableCopy.ImageHolds | Source/JavaScriptCore/assembler/ARMAssembler.cpp:347-376 | for every run the image resolves all linked jumps and keeps all other loads and instructions, if and only if every linked jump loads pc, asks for the pool or is out of range |
| ExecutableCopy.EntryInImage | Source/JavaScriptCore/assembler/ARMAssembler.h:655-659 | in the image every label handed out still leads to the instruction it stands for |
| ExecutableCopy.JumpInImage | Source/JavaScriptCore/assembler/ARMAssembler.cpp:357-373 | in the image of every run, which linked jumps have become branches and what the others load |
| ExecutableCopy.UnlinkedInImage | Source/JavaScriptCore/assembler/ARMAssembler.h:669-675 | in the image an unlinked jump still loads all ones |
| ExecutableCopy.FinishedIsPadded | Source/JavaScriptCore/assembler/ARMAssembler.cpp:347-352 | the finished code is the flushed code and at most one breakpoint behind it, of a multiple of eight bytes |
| ExecutableCopy.ImageIsPadded | Source/JavaScriptCore/assembler/ARMAssembler.cpp:347-376 | so is the image of every run: the loop never touches the breakpoint |
| Execution.LockStep | Source/JavaScriptCore/assembler/ARMAssembler.h:859-864 | a machine on a barrier lands on the next instruction; anywhere else it takes the step the program takes |
| WholeRun.MeaningPreserved | Source/JavaScriptCore/assembler/AssemblerBufferWithConstantPool.h:249-309 | for every run, processor, address and state, from the first word or any label, n steps of the program are matched by at most 2n steps of the finished code |
| WholeRun.NothingElseExecuted | Source/JavaScriptCore/assembler/AssemblerBufferWithConstantPool.h:276-309 | as long as the program has not run off its end, every place the machine reaches is an instruction or a barrier, never padding or a pool, and belongs to a state of the program |
| WholeRun.TraceIsSource | Source/JavaScriptCore/assembler/ARMAssembler.h:439-447 | the program the theorems speak of is the one read off the calls alone, and so is which of its jumps ask for the pool |
| PoolProperties.Reservation | Source/JavaScriptCore/assembler/AssemblerBufferWithConstantPool.h:124-128 | after ensureSpace(n, c) within the exact extent, whatever is emitted within it is contiguous, in whatever state the buffer was |
| PoolProperties.ReservationIff | Source/JavaScriptCore/assembler/AssemblerBufferWithConstantPool.h:320-327 | ensureSpace(n, c) keeps together whatever fits, in every state, if and only if c < 4, or n < 2036, or n < 2040 and c < 12, or n < 2044 and c < 8 |
| PoolProperties.DistanceGoesStale | Source/JavaScriptCore/assembler/AssemblerBufferWithConstantPool.h:249-254 | over n unshared loads from a fresh buffer the distance is 2048 - 4n, however negative, and from the 509th on each load flushes the one before |
| Tracking.PutConstantTracks | Source/JavaScriptCore/assembler/AssemblerBufferWithConstantPool.h:249-274 | after a put of a constant the distance is the real one if and only if the pool was empty, or the put did not flush and the distance was real before |
| Tracking.CallTracks | Source/JavaScriptCore/assembler/AssemblerBufferWithConstantPool.h:233-247 | for each call of the assembler, exactly when the distance is real afterwards; no call but a put of a constant ever spoils it |
| Tracking.TrackedIffNeverFull | Source/JavaScriptCore/assembler/AssemblerBufferWithConstantPool.h:249-254 | the distance is real all through a run if and only if the run never puts a constant while the pool is full |
| Tracking.TestIsEarly | Source/JavaScriptCore/assembler/AssemblerBufferWithConstantPool.h:311-327 | the space test never comes late, and is the documented one while the distance is real |
| Tracking.InsnTestIsEarly | Source/JavaScriptCore/assembler/AssemblerBufferWithConstantPool.h:311-318 | the same for the test before a plain instruction |
| Tracking.StaleFlushesAgain | Source/JavaScriptCore/assembler/AssemblerBufferWithConstantPool.h:249-254 | after a put that had to flush the next put of a constant flushes again, for one waiting load and with room left |
| PoolProperties.AlignLoop | Source/JavaScriptCore/assembler/ARMAssembler.h:661-667 | the loop ends for every alignment, at a place that passes the mask test, with the check's margin left |
| PoolProperties.AlignIsLeast | Source/JavaScriptCore/assembler/ARMAssembler.h:661-667 | as long as the pool is not flushed on the way, moves of r0 to itself are put up to the first aligned place and no further |
| AlignRuns.PaddingDoesNothing | Source/JavaScriptCore/assembler/ARMAssembler.h:661-667 | on the concrete processor the word align pads with leaves every machine as it was |
| AlignRuns.AlignMeansNothing | Source/JavaScriptCore/assembler/ARMAssembler.h:661-667 | all that one align emits, in whatever state, is together the identity |
| AlignRuns.AlignExecutes | Source/JavaScriptCore/assembler/ARMAssembler.h:661-667 | in finished code, whatever follows, a machine that comes to an alignment gets past it with its state unchanged |
| Masks.TestsMultiplesIff | Source/JavaScriptCore/assembler/AssemblerBuffer.h:88-91 | the mask test asks for a multiple of the alignment if and only if that is a power of two |
| PoolProperties.AlignedLabel | Source/JavaScriptCore/assembler/AbstractMacroAssembler.h:521-525 | from 16 bytes on the label after the loop flushes nothing more, so it passes the test, and is a multiple of an alignment that is a power of two |
| AssemblerBuffer.CodeBuffer.Grow | Source/JavaScriptCore/assembler/AssemblerBuffer.h:161-167 | capacity grows by half and the extra, contents survive the move |
| AssemblerBuffer.CodeBuffer.EnsureSpace | Source/JavaScriptCore/assembler/AssemblerBuffer.h:82-86 | one round of growing is enough for up to half the capacity; contents survive |
| AssemblerBuffer.CodeBuffer.PutWord | Source/JavaScriptCore/assembler/AssemblerBuffer.h:93-106 | one word is added behind the others |
| AssemblerBuffer.CodeBuffer.Append | Source/JavaScriptCore/assembler/AssemblerBuffer.h:152-159 | the given words are added behind the others |
| AssemblerBuffer.CodeBuffer.Copy | Source/JavaScriptCore/assembler/AssemblerBuffer.h:132-147 | the copy holds the code |
| PoolBuffer.PooledBuffer.FlushConstantPool | Source/JavaScriptCore/assembler/AssemblerBufferWithConstantPool.h:276-309 | barrier, padding, pool and the patching loop in place are a flush of the value: the pool ends the code on an 8-byte boundary, or nothing changes if it was empty |
| PoolBuffer.PooledBuffer.PatchWaitingLoads | Source/JavaScriptCore/assembler/AssemblerBufferWithConstantPool.h:302-306 | the loop over the load offsets patches each waiting load once |
| PoolBuffer.PooledBuffer.PutIntWithConstantInt | Source/JavaScriptCore/assembler/AssemblerBufferWithConstantPool.h:249-274 | reset test, space test, search loop and emission, in the source's order, are the put of the buffer's value |
| PoolBuffer.PooledBuffer.FindEntry | Source/JavaScriptCore/assembler/AssemblerBufferWithConstantPool.h:257-264 | the search loop finds the first equal reusable entry |
| PoolBuffer.PooledBuffer.PutInt | Source/JavaScriptCore/assembler/AssemblerBufferWithConstantPool.h:173-178 | space test, emission and correction are the put of the buffer's value |
| PoolBuffer.PooledBuffer.IsAligned | Source/JavaScriptCore/assembler/AssemblerBufferWithConstantPool.h:135-139 | the answer is about the code after the flush the question may cause |
| PoolBuffer.PooledBuffer.EnsureSpace | Source/JavaScriptCore/assembler/AssemblerBufferWithConstantPool.h:124-128 | the reservation flushes exactly when the value says so |
| PoolBuffer.PooledBuffer.EnsureSpaceForAnyOneInstruction | Source/JavaScriptCore/assembler/AssemblerBufferWithConstantPool.h:130-133 | reserves one instruction and a double word of constants |
| PoolBuffer.PooledBuffer.FlushWithoutBarrier | Source/JavaScriptCore/assembler/AssemblerBufferWithConstantPool.h:215-220 | flushes when forced or more than 60% full, without barrier |
| Assembler.CallApplies | Source/JavaScriptCore/assembler/ARMAssembler.h:655-680 | whatever a session is allowed the assembler can do, with the same effect on buffer and jumps |
| Assembler.RunApplies | Source/JavaScriptCore/assembler/ARMAssembler.h:655-680 | every run of a session is a run of the assembler, to the same buffer and jumps |
| Assembler.BranchLabel | Source/JavaScriptCore/assembler/ARMAssembler.h:669-675 | the recorded offset is the load's, and the label returned is that offset plus four |
| Assembler.FlushBehindPlaces | Source/JavaScriptCore/assembler/AssemblerBufferWithConstantPool.h:215-220 | behind a jump the pool is placed without barrier when forced or above 60%, else nothing happens |
| Assembler.ReservedCalls | Source/JavaScriptCore/assembler/AssemblerBufferWithConstantPool.h:124-128 | after a call of ensureSpace within the exact extent, the calls that keep to it emit word after word |
| Assembler.AlignIsRun | Source/JavaScriptCore/assembler/ARMAssembler.h:661-667 | align is a run of checks, moves of r0 to itself and one label, ending where the loop ends |
| Assembler.ArmAssembler.LoadBranchTarget | Source/JavaScriptCore/assembler/ARMAssembler.h:669-675 | reservation, recording and load in place are the jump call on the assembler's value |
| Assembler.ArmAssembler.LdrImm | Source/JavaScriptCore/assembler/ARMAssembler.h:439-442 | a shareable constant load on the assembler's value |
| Assembler.ArmAssembler.LdrUnImm | Source/JavaScriptCore/assembler/ARMAssembler.h:444-447 | an unshared constant load on the assembler's value |
| Assembler.ArmAssembler.MakeLabel | Source/JavaScriptCore/assembler/ARMAssembler.h:655-659 | the label is the end of the code after its reservation |
| Assembler.ArmAssembler.Align | Source/JavaScriptCore/assembler/ARMAssembler.h:661-667 | the loop in place terminates, and from 16 bytes on returns a label that passes the mask test, a multiple for powers of two |
| Assembler.ArmAssembler.LinkTo | Source/JavaScriptCore/assembler/ARMAssembler.h:769-774 | writes the one slot in the pool array or in the code, and nothing else |
| Assembler.ArmAssembler.RelocateJump | Source/JavaScriptCore/assembler/ARMAssembler.cpp:358-373 | one round rewrites the load as a branch, or its slot, or nothing, as the model says |
| Assembler.SessionReadable | Source/JavaScriptCore/assembler/ARMAssembler.cpp:357-373 | what the loop in place asserts of each jump holds at the end of every run |
| Assembler.ArmAssembler.MakeExecutable | Source/JavaScriptCore/assembler/ARMAssembler.cpp:347-376 | flush, padding, copy and loop yield the image of the meaning theorem, of a multiple of eight bytes and at most one word longer than the flushed code |
| JumpLists.ListIsLinked | Source/JavaScriptCore/assembler/AbstractMacroAssembler.h:480-486 | linking a whole list is the run of linking its jumps one by one |
| JumpLists.ListIsAllowed | Source/JavaScriptCore/assembler/AbstractMacroAssembler.h:480-486 | a list whose jumps may be linked one by one may be linked as a whole at any point of a run |
| JumpLists.LabelStays | Source/JavaScriptCore/assembler/AbstractMacroAssembler.h:434-441 | linking never costs a label its room, so all the labels link() asks for are the same |
| JumpLists.LabelIsNext | Source/JavaScriptCore/assembler/ARMAssembler.h:655-659 | at any point of a run, a label is the very place of the instruction emitted next, whichever kind it is |
| JumpLists.JumpList.Link | Source/JavaScriptCore/assembler/AbstractMacroAssembler.h:472-478 | all jumps get the one label here, the list is emptied, an empty list takes no label |
| JumpLists.JumpList.LinkTo | Source/JavaScriptCore/assembler/AbstractMacroAssembler.h:480-486 | all jumps get the given label and the list is emptied |
| JumpLists.JumpList.AddAll | Source/JavaScriptCore/assembler/AbstractMacroAssembler.h:488-497 | the other list's jumps are added behind |
| Immediates.GetOp2 | Source/JavaScriptCore/assembler/ARMAssembler.cpp:54-89 | a valid operand decodes to the word, and INVALID_IMM comes exactly when no rotated byte is the word |
| Immediates.BusyIsNoPair | Source/JavaScriptCore/assembler/ARMAssembler.cpp:91-134 | a word all of whose byte windows are busy is not the or of two rotated bytes, so giving up is right |
| Immediates.SearchWindows | Source/JavaScriptCore/assembler/ARMAssembler.cpp:101-132 | the first search loop ends, with the first free window or with all its windows busy |
| Immediates.SearchLastWindows | Source/JavaScriptCore/assembler/ARMAssembler.cpp:115-130 | the same for the nested loop over the windows that wrap around |
| Immediates.GenInt | Source/JavaScriptCore/assembler/ARMAssembler.cpp:91-198 | succeeds exactly when two rotated bytes make the word, and the operands it returns make it |
| MacroOps.GenIntCalls | Source/JavaScriptCore/assembler/ARMAssembler.cpp:188-197 | mov and orr, or mvn and bic for the complement, leave the immediate in the register |
| MacroOps.MoveHalves | Source/JavaScriptCore/assembler/ARMAssembler.cpp:242-249 | movw leaves an immediate below 2^16 in the register, movw and movt any other |
| MacroOps.EncodeComplexImm | Source/JavaScriptCore/assembler/ARMAssembler.cpp:240-261 | right for every immediate on both processor variants; the pool is used exactly when neither the word nor its complement is two rotated bytes and there is no movw |
| MacroOps.OneCall | Source/JavaScriptCore/assembler/ARMAssembler.cpp:220-235 | one instruction exactly when the word or its complement is a rotated byte |
| MacroOps.MoveImm | Source/JavaScriptCore/assembler/ARMAssembler.cpp:220-238 | for all 2^32 immediates the destination ends up holding exactly the immediate, nothing else changes, at most two instructions are used, and the pool only where no two instructions of the kind can make the word |
| MacroOps.GetImm | Source/JavaScriptCore/assembler/ARMAssembler.cpp:200-218 | whichever form is returned, the operand has the value of the immediate; plain exactly if it is a rotated byte, inverted exactly if only its complement is one and that was asked for |
| WordBits.ImmIs | Source/JavaScriptCore/assembler/ARMAssembler.cpp:54-89 | an operand's rotated byte, as a number of the machine, is the bit vector found by the search |
| Addressing.DataTransfer32 | Source/JavaScriptCore/assembler/ARMAssembler.cpp:265-289 | for every signed 32-bit offset, word or byte: one access at base + offset modulo 2^32, only S0 changed, if and only if S0 is neither the base of a far transfer nor stored by one that is not near; a near one changes no register |
| Addressing.BaseIndexTransfer32 | Source/JavaScriptCore/assembler/ARMAssembler.cpp:291-313 | for every offset and scale: one access at base + (index << scale) + offset, if and only if S0 is not stored and, unless the offset is near, neither base nor index |
| Addressing.DoubleTransfer | Source/JavaScriptCore/assembler/ARMAssembler.cpp:315-345 | for every offset but the least integer: one double access at base + offset, if and only if S0 is not the base of a transfer that needs a constant; a near one changes no register |
| Addressing.FactorIsPower | Source/JavaScriptCore/assembler/ARMAssembler.cpp:291-313 | a shift of the index by so many places multiplies by that power of two |
| Addressing.PageValue | Source/JavaScriptCore/assembler/ARMAssembler.cpp:272-274 | a byte under rotation 10 or 11 counts pages of 2^12 or 2^10 bytes |
| MacroRuns.StraightStays | Source/JavaScriptCore/assembler/ARMAssembler.h:439-447 | straight code emitted at any point of any run is in the finished program, whatever is called later: only recorded jumps ever change |
| MacroRuns.StraightRuns | Source/JavaScriptCore/assembler/ARMAssembler.cpp:265-345 | the finished program, whatever follows the straight code, carries it out in as many steps as it had calls |
| MacroRuns.MoveRuns | Source/JavaScriptCore/assembler/ARMAssembler.cpp:220-238 | the finished program leaves the immediate of a move in its register and nothing else changed |
| MacroRuns.StraightExecutes | Source/JavaScriptCore/assembler/ARMAssembler.cpp:265-345 | the finished machine code: wherever the machine comes to straight code that something follows, at most twice as many steps later it stands behind it, having done what the calls mean |
| MacroRuns.MoveExecutes | Source/JavaScriptCore/assembler/ARMAssembler.cpp:220-238 | the same for a move: the machine goes on with the immediate in the register |
| MacroRuns.TransferExecutes | Source/JavaScriptCore/assembler/ARMAssembler.cpp:265-289 | the same for a transfer: the machine goes on having made one access at base + offset |
| MacroRuns.IndexedTransferExecutes | Source/JavaScriptCore/assembler/ARMAssembler.cpp:291-313 | the same for a transfer with a scaled index |
| KeywordTrie.InsertLookup | Source/JavaScriptCore/KeywordLookupGenerator.py:88-94 | insertion changes the table at its key and nowhere else |
| KeywordTrie.InsertKeeps | Source/JavaScriptCore/KeywordLookupGenerator.py:88-94 | siblings keep different characters and no branch ends without a value |
| KeywordNodes.Node.Insert | Source/JavaScriptCore/KeywordLookupGenerator.py:88-94 | the recursive insertion into shared node objects does to the tree below exactly what insertion does to its value, with no other object touched |
| KeywordNodes.Node.CoalesceKeys | Source/JavaScriptCore/KeywordLookupGenerator.py:96-101 | the loop leaves the node with every child coalesced, under its new label, in the same order |
| KeywordNodes.Node.Joined | Source/JavaScriptCore/KeywordLookupGenerator.py:106-111 | a node with the joined label takes over the single child's value and dictionary |
| KeywordNodes.Node.Coalesce | Source/JavaScriptCore/KeywordLookupGenerator.py:96-111 | the node left behind and the node returned, which may be one object, are the two values the shape and table theorems speak of |
| KeywordNodes.BuildTrie | Source/JavaScriptCore/KeywordLookupGenerator.py:198-202 | inserting all keywords and coalescing the root, result dropped, leaves the trie whose table is that of the keyword list |
| KeywordTrie.BuiltIsTable | Source/JavaScriptCore/KeywordLookupGenerator.py:199-201 | the trie of a keyword list stands for its table, the last entry of a key counting |
| KeywordTrie.CoalesceShape | Source/JavaScriptCore/KeywordLookupGenerator.py:96-111 | siblings still begin differently, and every node below the root has a value or at least two children |
| KeywordTrie.CoalesceKeepsTable | Source/JavaScriptCore/KeywordLookupGenerator.py:96-111 | what coalescing leaves in the root, its returned node discarded, stands for the same table |
| KeywordTrie.CoalesceKeepsReach | Source/JavaScriptCore/KeywordLookupGenerator.py:96-111 | the node coalescing returns stands for the same table |
| KeywordOrder.SortIsSorted | Source/JavaScriptCore/KeywordLookupGenerator.py:113-123 | children are ordered by falling weight, all of them, each once |
| KeywordOrder.SortIsStable | Source/JavaScriptCore/KeywordLookupGenerator.py:122 | children of equal weight keep the order they had |
| KeywordOrder.FillOutOrders | Source/JavaScriptCore/KeywordLookupGenerator.py:113-123 | the weight of a node is the sum over all paths from it, and at every node of the result the children stand by falling weight |
| KeywordOrder.AnyOrder | Source/JavaScriptCore/KeywordLookupGenerator.py:113-123 | the table of a node does not depend on the order of its children |
| KeywordOrder.FillOutKeepsTable | Source/JavaScriptCore/KeywordLookupGenerator.py:113-123 | ordering by any weights keeps the table |
| KeywordCode.ComparisonIs | Source/JavaScriptCore/KeywordLookupGenerator.py:206-286 | packed and overlapping comparisons agree with character-by-character matching, for one to eight characters, both text widths and the three kinds of processor |
| KeywordCode.LoadOfFour | Source/JavaScriptCore/KeywordLookupGenerator.py:232-239 | what a little-endian load reads from four units, digit by digit, is the packed constant of them |
| KeywordCode.ComparisonReads | Source/JavaScriptCore/KeywordLookupGenerator.py:267-286 | no comparison looks past the characters it compares |
| KeywordLookup.Print | Source/JavaScriptCore/KeywordLookupGenerator.py:125-159 | the printing loop yields the code tree of the theorem |
| KeywordLookup.TakenIff | Source/JavaScriptCore/KeywordLookupGenerator.py:137-149 | a branch is taken exactly if the child's label comes next, also when its test is backed up by one |
| KeywordLookup.TestIs | Source/JavaScriptCore/KeywordLookupGenerator.py:137-141 | the characters of a test are what the full prefix of the child spells from its address on |
| KeywordLookup.PrintsThreeAtStart | Source/JavaScriptCore/KeywordLookupGenerator.py:137-141 | three characters are compared at the very beginning of the input only |
| KeywordLookup.CompilesIffShort | Source/JavaScriptCore/KeywordLookupGenerator.py:142-149 | only defined macros are used exactly if no label is longer than eight |
| KeywordLookup.ReadsBelowMax | Source/JavaScriptCore/KeywordLookupGenerator.py:173-174 | every index read is below the printed maxTokenLength |
| KeywordLookup.MaxLength | Source/JavaScriptCore/KeywordLookupGenerator.py:161-167 | the loop finds the length of the longest path |
| KeywordLookup.KeysFit | Source/JavaScriptCore/KeywordLookupGenerator.py:161-167 | no keyword is longer than that |
| KeywordLookup.LongestIsLength | Source/JavaScriptCore/KeywordLookupGenerator.py:161-167 | for every keyword list, no keyword is longer, and one of them is exactly that long |
| KeywordLookup.ExecIsSearch | Source/JavaScriptCore/KeywordLookupGenerator.py:125-159 | from any node, running the code is searching the table below it |
| KeywordLookup.PreparedIsTable | Source/JavaScriptCore/KeywordLookupGenerator.py:198-203 | built, coalesced and ordered, the trie stands for the keyword table |
| KeywordLookup.GeneratedCodeIsSearch | Source/JavaScriptCore/KeywordLookupGenerator.py:125-196 | for every keyword list whose code compiles, weights, processor, text width and input, the code returns the shortest keyword followed by no identifier part, else IDENT |
| KeywordLookup.GeneratedCodeFindsWords | Source/JavaScriptCore/KeywordLookupGenerator.py:125-196 | for keywords of identifier parts, a token is returned exactly when the input starts with its keyword as a whole word |
| Crc.MakeCrcTable | Tools/DumpRenderTree/CyclicRedundancyCheck.cpp:36-48 | the nested loops fill the table with eight shifts of each index |
| Crc.LookupIsFeed | Tools/DumpRenderTree/CyclicRedundancyCheck.cpp:60-61 | one table lookup is feeding the eight bits of the byte, lowest first |
| Crc.ShiftsAreLinear | Tools/DumpRenderTree/CyclicRedundancyCheck.cpp:40-45 | any number of shifts distributes over exclusive or |
| Crc.ComputeCrc | Tools/DumpRenderTree/CyclicRedundancyCheck.cpp:50-63 | the table-driven loop agrees with the bit-serial checksum on every buffer |
| Polynomials.DivisionIsUnique | Tools/DumpRenderTree/CyclicRedundancyCheck.cpp:50-63 | quotient and remainder of a division of polynomials over the two-element field are unique |
| CrcDivision.StepDivides | Tools/DumpRenderTree/CyclicRedundancyCheck.cpp:40-45 | a step of the register, mirrored, is a step of long division of polynomials by the generator |
| CrcDivision.CrcIsDivision | Tools/DumpRenderTree/CyclicRedundancyCheck.cpp:50-63 | there are q and r with message times x^32, plus the preset, equal to q times the generator of RFC 2083 section 3.4 plus r, of degree below 32, and the checksum is r mirrored and complemented |
| CrcDivision.RemainderIsCrc | Tools/DumpRenderTree/CyclicRedundancyCheck.cpp:50-63 | whatever q and r make that equation true, the checksum is that r |
| CrcDivision.GeneratorTerms | Tools/DumpRenderTree/CyclicRedundancyCheck.cpp:40-45 | the generator has the fifteen terms section 3.4 of RFC 2083 lists |
| Crc.FeedConcat | Tools/DumpRenderTree/CyclicRedundancyCheck.cpp:59-61 | going over a concatenation is going over the parts in turn |
| Crc.OneByteChangeShows | Tools/DumpRenderTree/CyclicRedundancyCheck.cpp:50-63 | a change of any one byte changes the checksum |
| Png.AppendInt | Tools/DumpRenderTree/PixelDumpSupport.cpp:77-85 | four bytes are added, highest first |
| Png.WordRoundTrip | Tools/DumpRenderTree/PixelDumpSupport.cpp:77-85 | the four bytes read back as the number |
| Png.WordIsLength | Tools/DumpRenderTree/PixelDumpSupport.cpp:77-85 | a stored word is the number its bytes are as a chunk length, the first byte highest |
| Png.ConvertChecksumToPNGComment | Tools/DumpRenderTree/PixelDumpSupport.cpp:87-103 | prefix, checksum and the CRC over type and data |
| Png.CommentIsChunk | Tools/DumpRenderTree/PixelDumpSupport.cpp:87-103 | whatever follows, the comment is one tEXt chunk of 41 bytes of data with the right CRC (RFC 2083 section 3.2) |
| Png.SpliceParses | Tools/DumpRenderTree/PixelDumpSupport.cpp:105-136 | the output parses as the same chunks with the tEXt chunk right behind IHDR |
| Png.PrintPNG | Tools/DumpRenderTree/PixelDumpSupport.cpp:112-136 | the announced length is that of the spliced file; the spliced file comes out, and as many bytes as announced, exactly if the device takes the front, the comment and each block of 2^15 bytes whole; once front and comment are taken, what comes out is a beginning of it |
| Png.AllBlocks | Tools/DumpRenderTree/PixelDumpSupport.cpp:125-135 | the loop gets the whole rest out exactly if every block is taken whole |
| Png.WholeIsTaken | Tools/DumpRenderTree/PixelDumpSupport.cpp:116-136 | what printPNG writes is the spliced file, and as long as announced, exactly if every write is taken whole |
| Png.StopsAtShort | Tools/DumpRenderTree/PixelDumpSupport.cpp:130-132 | the first block not taken whole ends the loop, behind the bytes that were taken of it |
| Png.AllIsAnnounced | Tools/DumpRenderTree/PixelDumpSupport.cpp:116-136 | as many bytes as announced come out if and only if each part was taken whole, and then they are the spliced file |
| Png.ShortIsBeginning | Tools/DumpRenderTree/PixelDumpSupport.cpp:122-136 | if the first two writes, whose results are ignored, are taken whole, what comes out is a beginning of the file |

## Left out

- Byte, short and 64-bit puts, one- and two-byte padding, the unchecked puts: other instantiations or unused by the ARM emitters.
- Widths of counters and of the buffer size: buffers of 2 GB and more are not modelled.
- Conditions, flags and ordinary instructions beyond the macro operations: parameters of the processor in the meaning theorems; ordinary instructions are taken not to read pc.
- Loaded values and floating point: a transfer in the concrete machine records its address only.
- Calls through a loaded address (`blx` and the code that links calls after the copy): LinkBuffer and RepatchBuffer are not part of this model. The call sequence of processors before version 5 is left out with it.
- Running off the end of the program: nothing is claimed, as the source claims nothing.
- An assembler without a single instruction: executableCopy has no result there, so `MakeExecutable` asks for code.
- Executable memory, cache flushing, write protection: the copy is an array, its address a parameter.
- pc as base, index or transferred register of a word transfer, or as base of a double: the machine keeps pc apart from its registers, and reading pc there would be a literal load.
- Alignment 0, whose mask is all ones.
- The trie as mutable objects from `fillOut` on: full prefix, weight and the sorted children are results there, not fields assigned in the nodes; building and coalescing do work on node objects. Coalescing updates the dictionary entry by entry where the source fills a second one and exchanges them.
- Weights: real numbers, so rounding of float sums is not modelled; the order has no influence on any result.
- The big-endian macros, keyword file parsing, identifier creation and the printed boilerplate.
- `printf` and the header lines of printPNG; files shorter than 33 bytes, which the source does not handle.
