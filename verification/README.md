# SadLayer verification

SadLayer loads and runs Windows programs on Linux. This project models its hardest
self-contained algorithms and protocols in Dafny and proves what they promise. Check it
with `dafny verify dfyconfig.toml`.

## What is modelled

**The AMD64 unwinder.** `Context`, `UnwindCodes`, `UnwindApply` and `UnwindImage` hold the
CONTEXT record, the unwind-code array, the interpreter and the records in the image;
`UnwindV1` and `UnwindV2` the two ways of leaving an epilogue; `UnwindFrame` one frame;
`UnwindWalk` the two exception passes. `Prologue` gives the prologue instructions of the
x64 calling convention a machine semantics, independent of the unwinder, and proves that
unwinding inverts it at every instruction boundary. `UnwindAgreement` proves that the code
interpreter, the byte simulator and the descriptor walk all find the same caller,
`ChainedFunction` undoes a prologue split over chained records, and `WholeFunction` follows
one function of an image, of one record or a chain, from its prologue to its return;
`FunctionExample`, `DeclaredExample` and `FragmentExample` are such functions byte by byte.
`InterruptFrame` is a function that an interrupt entered, `Establisher` and `HandlerAnswer`
what a frame answers beside the context, `UnwindFootprint` what it leaves alone.

What the bytes mean is told from the writer's side, with the format's own numbers:
`UnwindEncoding` and `RecordAcceptance` (records: exactly the bytes an assembler may write
are accepted), `FunctionTable`, `ChainMeaning` and `ExitEncoding` (jumps, operands and pops).
`SearchPass` and `UnwindPass` tell every answer of the two passes by the frames met and by
what their handlers answered.
Handlers are arbitrary functions of what they are shown, to a disposition and new memory and
contexts. The reference is Microsoft's "x64 exception handling", sections "struct
UNWIND_CODE" and "Unwind procedure".

**The handle table.** `HandleTable` is a step system: any number of threads, any
interleaving, every atomic access a step of its own; a step that would abort or touch
freed memory sets a fault flag. One inductive counting invariant (`HandleInvariant`,
`HandleSteps`) yields the guarantees in `HandleRuns`, `HandleGuarantees`, `HandleCalls`,
`HandleHistory` and `HandleFreeze`.

**TLS and FLS slots.** `LocalSlots` is the lock-free protocol in the same style, with a log
of what calls did and returned. `LocalInvariant` states what threads rely on;
`LocalCalls` ties each answer to the arguments of its call, `LocalGuarantees` to an instant of
it, and `LocalValues` says what a thread's own array holds; `LocalLinear` proves that the
calls, each at its instant, form a sequential history. Two fields are not read by the code and serve only the
statements: what statuses an index had during a call, and the generation live at a final
check.

**Loader transformations.** `Relocation`, `RelocationLaws` and `RelocationOverlap` (two
passes over a directory that lives in the bytes being patched), with `RelocationLayout` for
the linker's side; `PeImage`, `ImageViews` and `PeExports` (file view against mapped view),
with `PeFormat`, `PeLayout` and `ExportLayout` for the format's; `ModuleRegistry`,
`Forwarders` and `SymbolResolution`, with `RegisteredModules` for what a registration makes
available.

**Text algorithms.** `Unicode`, `Transcoding`, `TranscodingLaws` and `LossyReading` (section 3
of RFC 3629, sections 2.1 and 2.2 of RFC 2781), `Wildcards`, `SearchPatterns`,
`SearchPatternLaws` and `SearchMeaning`.

## How it is built

Code that works step by step is a method with the source's loops, on classes and arrays
where the source updates in place. Its contract ties it to a function on values, and the
theorems are about that function. The unwinder sees of a module only the fields it reads
(`UnwindImage.LoadedModule`). Machine integers are bounded types over `int`; sums that
wrap, shifts and masks are written out.

## Findings

- *Unwinding inverts the prologue* wherever RSP has gone exactly when a frame register is
  set up and no push follows its set-up (`PrologueLimits.RspIsFreeIffNoPushSinceFrame`);
  `PrologueExamples.MovedRspLosesPush` runs a legal prologue that loses the caller's RBX.
- *In an epilogue* the frame base is computed, and refused, before the epilogue is looked
  at. Once the frame register is popped it is the caller's, so unwinding succeeds exactly
  when that value is not below the function's scaled frame offset
  (`WholeFunction.FunctionUnwinds`); `FunctionExample.PoppedFrameRegisterFails` is an
  image, a run and a boundary at which it fails.
- *Code mistaken for an epilogue*: version 1 has no epilogue table, so the unwinder reads the
  bytes at the address. In prologue and body it finds the caller exactly when whatever
  epilogue they can be read as leads to the caller's return (`WholeFunction.FunctionUnwinds`),
  always when they cannot be read as one (`WholeFunction.PlainCodeUnwinds`). A jump out of
  the table entry is read as a tail call: at one, the caller is found exactly when the state
  is already the caller's (`WholeFunction.ExitInBody`). A fragment that ends in a call and a
  jump back into its parent breaks this at the call's return address
  (`FragmentExample.JumpBackIsMistaken`).
- *The two passes agree* exactly when every RSP up to the target frame is valid, no earlier
  frame is at the target and no earlier table frame beyond it (`UnwindWalk.PassesAgree`).
- *TLS and FLS* calls are linearizable but for one answer: an allocation's scan takes no
  snapshot, so it may report that indexes have run out though at every instant some index
  is free (`LocalFull.FullWithoutBeingFull`). It ends with every index taken exactly when
  each index given back during the call was taken again (`LocalFull.ExhaustedIffRetaken`),
  so always when none is given back (`LocalFull.UndisturbedIsRight`); an answer that met
  all indexes taken has its place in the order (`LocalLinear.RunsAreLinearizable`).
- *Wildcards* have their declared meaning for all patterns exactly on names without `*`
  (`Wildcards.GreedyIsExactIffNoStar`).
- *Relocation round trips*: when a directory names each word once, the image returns from
  every move exactly when no two words share a byte (`RelocationOverlap.ReturnsIffApart`);
  `RelocationOverlap.OverlapNotRestored` is an accepted image that does not.
- *File and mapped views* agree on a window, for every content of the file, exactly when
  no later raw range maps one of its bytes from another place
  (`ImageViews.AgreesIffOwned`); `PeLayout.OverlapDisagrees` is a file that parses.
- *Forwarder ordinals* go through `strtoul`: the number of an accepted one is plain decimal
  exactly when it starts with a digit (`Forwarders.OrdinalIsPlainIffDigitFirst`).

## Model

| member | source | states |
|---|---|---|
| Context.WordReadsBack | src/win64_unwind.c:351-358 | a stack slot just written reads back as the value written |
| Context.XmmwordReadsBack | src/win64_unwind.c:360-367 | the same for a sixteen-byte slot |
| UnwindCodes.ParseV2EpiloguePrefix | src/win64_unwind.c:392-436 | the loop over the version-2 descriptors computes the prefix function: rejected, or the first prologue slot and the epilogue size |
| UnwindCodes.PrefixMeaning | src/win64_unwind.c:392-436 | an accepted prefix is an even run of descriptors with at least one epilogue, and zero padding only in its last slot |
| UnwindCodes.ValidateUnwindCodes | src/win64_unwind.c:438-483 | the validation loop accepts exactly the code arrays every operation of which passes the checks, and reports whether a frame set-up occurs |
| UnwindCodes.ValidatedCodesWalk | src/win64_unwind.c:392-483 | after validation the walk from the first operation and the walk in pairs from slot zero both land exactly on the end, all operand reads stay inside, and every operation is sound and in backward prologue order |
| UnwindApply.ApplyUnwindCodes | src/win64_unwind.c:739-857 | the interpreter loop over raw slots succeeds exactly when applying the decoded operations does, and then leaves its result in the context; a failure has the same reason |
| UnwindApply.FrameRegisterIsEstablished | src/win64_unwind.c:686-703 | the scan for SET_FPREG answers whether the frame register was set up before the given prologue position |
| UnwindApply.ApplyAppend | src/win64_unwind.c:739-857 | interpreting two stretches of codes is interpreting one and then the other |
| UnwindApply.ApplySkipsEpilogs | src/win64_unwind.c:760-785 | epilogue descriptors change nothing whatever prologue position their bytes hold |
| UnwindApply.SoundCodesFailAtRuntimeOnly | src/win64_unwind.c:739-857 | codes that passed validation fail only on stack bounds, address or frame-base arithmetic or a bad large allocation |
| Prologue.UnwindInvertsPrologue | src/win64_unwind.c:739-857 | for every prologue that follows the calling convention and every instruction boundary in it or in the body, interpreting its codes restores the caller's RSP and every nonvolatile integer and XMM register |
| Prologue.SkipsUnexecuted | src/win64_unwind.c:752-758 | inside the prologue exactly the operations of completed instructions are undone |
| Prologue.UndoAll | src/win64_unwind.c:739-857 | undoing the described instructions, last first, walks the machine back to its entry state |
| Prologue.UnwindReturnsToCaller | src/win64_unwind.c:1519-1530 | with the return popped the context is the caller's just after the call |
| PrologueExamples.OrdinaryPrologueIsLegal | src/win64_unwind.c:739-857 | an ordinary prologue (push, allocate, frame register, save) meets every condition of the main theorem on any stack with room |
| PrologueLimits.RspIsFreeIffNoPushSinceFrame | src/win64_unwind.c:739-857 | at every boundary of every legal prologue the codes find the caller wherever in the stack RSP has gone if and only if a frame register is set up and no push follows its set-up |
| PrologueExamples.PushedPrologueIsLegal | src/win64_unwind.c:739-857 | a prologue that pushes after its frame register's set-up is legal too |
| PrologueExamples.MovedRspLosesPush | src/win64_unwind.c:739-857 | run that prologue and push one more word in the body: every condition of the convention is kept, the unwinder succeeds, and the caller's RBX comes back as that word |
| UnwindImage.ResolveModuleAddress | src/module.c:233-252 | the scan finds the first PE module whose half-open mapped range holds the address |
| UnwindImage.LookupFunctionEntry | src/win64_unwind.c:189-240 | the table scan computes the lookup function: every entry valid and in order, and the last entry that contains the address |
| UnwindImage.FoundEntryContains | src/win64_unwind.c:189-240 | a found entry is a valid entry of that module's table and contains the address |
| UnwindImage.LookupMeaning | src/win64_unwind.c:189-240 | in an orderly table an entry is found if and only if it contains the address, so at most one does; a table out of order is refused whatever the address |
| UnwindImage.ParseUnwindRecord | src/win64_unwind.c:499-554 | reading a record yields the parsed record or rejects it, with the code array validated |
| UnwindEncoding.WrittenCodesDecode | src/win64_unwind.c:739-857 | every list of operations, written slot by slot in the scaled or the unscaled form, walks exactly and decodes to itself |
| UnwindEncoding.RecordReadsBack | src/win64_unwind.c:499-554 | a record written with any valid fields reads back with every field, wherever it stands in a module |
| RecordAcceptance.AcceptedIffWritten | src/win64_unwind.c:392-483 | any bytes whatever are accepted as a record's code array if and only if they are descriptors, in a version-2 record, and operations that the format allows: the ABI's registers, aligned offsets, positions backwards inside the prologue, one frame set-up; and the epilogues and the frame set-up found are those written |
| RecordAcceptance.RecordIff | src/win64_unwind.c:499-554 | what is read at an address stands there in the format's layout with a header the format allows, and anything else is refused |
| FunctionTable.EntryReadsBack | src/win64_unwind.c:859-878 | an entry pointer names the entry a linker wrote there, if its ranges are usable, and nothing past the table |
| FunctionTable.OwnerIsFirst | src/module.c:233-252 | an address belongs to a module if and only if that module's mapping holds it and no module registered earlier does |
| FunctionTable.WrittenLookup | src/win64_unwind.c:189-240 | in a written table whose entries are usable and in order an address finds exactly the entry that covers it; in any other table nothing |
| FunctionTable.NoTableNoEntry | src/win64_unwind.c:160-205 | outside every module, or in one without a function table, no entry is found |
| UnwindEncoding.WrittenPrologueUnwinds | src/win64_unwind.c:739-857 | from instructions to slots and back: a legal prologue's written codes restore the caller at every boundary |
| UnwindImage.ValidateV2EpilogueRanges | src/win64_unwind.c:556-588 | the loop accepts exactly the records all of whose declared epilogues lie in the function |
| UnwindImage.FindV2Epilogue | src/win64_unwind.c:590-622 | the search over descriptors computes the offset of the address in a declared epilogue |
| UnwindImage.EpilogueOffsetMeaning | src/win64_unwind.c:590-622 | if some declared epilogue holds the address the search answers the address's offset in one that does, and otherwise none |
| UnwindImage.ValidateUnwindChain | src/win64_unwind.c:624-684 | the loop over chained records accepts exactly the chains every link of which passes, within the depth limit |
| ChainMeaning.ValidIffChain | src/win64_unwind.c:624-684 | a chain is valid if and only if its links lead, over at most 32 records that agree on the frame, to one that is not chained, sets the frame up and has its handler in the image |
| ChainMeaning.TooLongTold | src/win64_unwind.c:624-684 | thirty-three records that agree on the frame are refused as too many, not as a bad chain |
| ChainMeaning.NextReadsBack | src/win64_unwind.c:649-668 | a chained record leads to the entry written in its trailer, if that is usable |
| ChainMeaning.RangesMean | src/win64_unwind.c:556-588 | a record fits its function if and only if every epilogue it declares lies in the function, past the prologue |
| ChainMeaning.ReplaysTheOnlyPushes | src/win64_unwind.c:889-1055 | over a whole chain a declared epilogue replays the operations from the first push on of the only record with a push, just returns where no record has one, and is refused where two have |
| ChainMeaning.ReplayedIsReplayable | src/win64_unwind.c:990-1055 | it is replayed only over pushes, perhaps one eight-byte allocation and perhaps a machine frame; any other operation there is refused |
| UnwindV2.SelectPushRecord | src/win64_unwind.c:901-944 | the loop up the chain selects the first record with a push, or the last one, and its index is where the operations from the first push on begin |
| UnwindV2.CheckParentRecords | src/win64_unwind.c:946-988 | the loop over the parents rejects exactly the chains with a push above the selected record |
| UnwindV2.UnwindV2Epilogue | src/win64_unwind.c:889-1055 | the descriptor walk succeeds exactly when replaying the remaining pops and the return does, and then leaves its result in the context |
| UnwindV2.EpilogueResumes | src/win64_unwind.c:990-1054 | after any number of the epilogue's pops, replaying from there gives what replaying from its start gives, unless the pops themselves left the stack |
| UnwindV2.EpilogueResumesAfterVolatilePop | src/win64_unwind.c:990-1054 | the same after the optional one-byte pop of a volatile register |
| UnwindV2.EpilogueAgreesWithCodes | src/win64_unwind.c:990-1054 | from offset zero the descriptor walk equals the code interpreter on the codes from the first push on, followed by the return |
| UnwindV2.MachineFrameAgrees | src/win64_unwind.c:1030-1054 | for a machine frame without error code the walk and the interpreter find the same RIP and RSP |
| UnwindV1.SimulateEpilogue | src/win64_unwind.c:1057-1309 | the byte simulator's loop computes the simulation function, and changes the context only on success |
| UnwindV1.EpilogueSimulated | src/win64_unwind.c:1057-1309 | started at the first byte of an epilogue (optional add or lea, pops, a return, a return that pops arguments or a tail jump) the simulator executes it as the processor would |
| UnwindV1.EpilogueSimulatedAnywhere | src/win64_unwind.c:1057-1309 | the context found does not depend on how many of the epilogue's instructions have already run |
| UnwindV1.AnswerIffRead | src/win64_unwind.c:1057-1309 | for any bytes: the simulator answers a context if and only if the bytes can be read as an epilogue of at most 32 instructions whose execution stays on the stack, and the context is what that execution leaves |
| ExitEncoding.JumpLeavesIff | src/win64_unwind.c:1217-1248 | a jump written for a target, in the short or the near form, ends an epilogue exactly when the target is not strictly inside the function |
| ExitEncoding.JumpSizeIff | src/win64_unwind.c:1262-1300 | the size found for a jump through an operand is that of the operand written there, in every addressing mode, if one is |
| ExitEncoding.PopLengthIsShortest | src/win64_unwind.c:990-1009 | a declared epilogue counts its pops in their shortest encoding |
| UnwindFrame.UnwindRecords | src/win64_unwind.c:1410-1531 | the loop over the chain computes the chained unwinding |
| UnwindFrame.VirtualUnwindFrame | src/win64_unwind.c:1311-1545 | one frame: validation, epilogue detection, codes and return; the caller's context changes only when the whole frame unwinds |
| UnwindFrame.UnwindLeafFrame | src/win64_unwind.c:1547-1562 | a leaf frame pops only the return address |
| UnwindFrame.ValidatedChainFailsAtRuntimeOnly | src/win64_unwind.c:1410-1504 | once the chain is validated its re-parse never fails: only stack bounds, arithmetic or a bad large allocation stop the unwinder |
| UnwindFrame.ValidatedChainSelects | src/win64_unwind.c:889-989 | over a validated chain the epilogue walk finds its record and objects only to a parent with a push |
| UnwindFrame.UnwindIgnoresHandlerType | src/win64_unwind.c:1404-1543 | context and establisher do not depend on the handler type asked for |
| HandlerAnswer.HandlerIffWritten | src/win64_unwind.c:1410-1531 | whatever the machine's state, a frame that unwinds answers the handler and data RVAs written in the last record of its chain if and only if the address is past the first record's prologue, in no epilogue recognised, and the record was written for the type asked for |
| HandlerAnswer.FunctionHandler | src/win64_unwind.c:1311-1545 | along one run of a function: that handler in the body, none in the prologue and none in an epilogue |
| HandlerAnswer.WrittenIsValid | src/win64_unwind.c:624-684 | a written unchained record is valid exactly when its epilogues fit the function, a frame register it names is set up and a handler it names is in the image |
| Establisher.EstablisherIsBase | src/win64_unwind.c:1354-1381 | every frame that unwinds answers as its establisher the frame register less its scaled offset, once the first record's own set-up has run or a chained record leaves it to its parents, and RSP otherwise |
| Establisher.EstablisherIsFrame | src/win64_unwind.c:1354-1381 | along one run of a function the establisher is RSP until the machine has set its frame register up, and then the base of that frame |
| Establisher.BaseIsRspAtSetUp | src/win64_unwind.c:1354-1381 | that base is RSP as it was when the frame register was set up, at every later boundary of the prologue |
| UnwindFootprint.FrameLeaves | src/win64_unwind.c:1311-1545 | whatever image, address and stack, RAX, RCX, RDX, R8 to R11 and XMM0 to XMM5 pass through unwinding as they are, and so do flags and segments unless a record names a machine frame |
| UnwindFootprint.LeafLeaves | src/win64_unwind.c:1547-1562 | a leaf frame unwinds exactly when its return address is on the stack; RIP is that address, RSP passes it, everything else stays |
| UnwindFootprint.OpSucceedsIff | src/win64_unwind.c:739-857 | an operation is undone exactly when its operand is of use, its reads are on the stack and no address wraps |
| UnwindFootprint.ArgumentsTold | src/win64_unwind.c:1319-1353 | a bad argument is told from a bad image: with sound arguments the chain is validated before anything else |
| InterruptFrame.InterruptedContextFound | src/win64_unwind.c:822-853 | a function entered by an interrupt, with or without an error code: from every boundary of its prologue and body outside recognised epilogues the interrupted RIP, RSP, flags, segments and nonvolatile registers are found |
| InterruptFrame.DeclaredLeavesInterrupt | src/win64_unwind.c:1025-1045 | at the end of such a function's declared epilogue, the error code removed, the interrupted RIP and RSP are found |
| UnwindAgreement.InterpreterFindsCaller | src/win64_unwind.c:1404-1543 | in prologue and body, interpreting the codes and popping the return finds the caller's context |
| WholeFunction.BodyReachesPops | src/win64_unwind.c:1057-1309 | from the body of one legal run, with the registers saved by moves restored and the stack adjustment executed, the stack is as the pops of that run's own pushes need it |
| UnwindAgreement.SimulatorFindsCaller | src/win64_unwind.c:1057-1309 | with a frame register or, as for most functions, none: from every boundary of an epilogue that mirrors the pushes the byte simulator finds the same caller context |
| UnwindAgreement.DescriptorWalkFindsCaller | src/win64_unwind.c:990-1054 | from every boundary of a declared epilogue, the one after a volatile pop included, the descriptor walk finds the same caller context |
| UnwindAgreement.VirtualUnwindFindsCaller | src/win64_unwind.c:1311-1545 | from image bytes to the caller: for a validated unchained record of a legal prologue, at every boundary of prologue and body outside the epilogues it recognises, sl_win64_virtual_unwind finds the caller's context |
| WholeFunction.ImageEpilogueFindsCaller | src/win64_unwind.c:1057-1309 | the byte simulator, run on the image's own bytes from any boundary of a mirrored epilogue, finds the caller's context |
| WholeFunction.FunctionUnwinds | src/win64_unwind.c:1311-1545 | one run of one function, of one record or a chain, of either version, at every instruction boundary: in a mirrored or declared epilogue sl_win64_virtual_unwind answers if and only if the frame register, if there is one, is not below its scaled offset, and then the caller's context; in prologue and body it always answers, and the caller's context if and only if whatever version-1 epilogue the bytes at the address can be read as, executed from here, ends at the caller's return address with the caller's registers |
| WholeFunction.ExitInBody | src/win64_unwind.c:1222-1254 | at a boundary of prologue or body whose bytes are a return or a jump out of the table entry, the unwinder returns through it at once: the caller is found if and only if the state is already the caller's, RSP at the return address included |
| WholeFunction.PlainCodeUnwinds | src/win64_unwind.c:1057-1309 | at every boundary of prologue and body whose bytes cannot be read as an epilogue the caller is found |
| WholeFunction.ShapeBegins | src/win64_unwind.c:1057-1309 | bytes that can be read as an epilogue begin with add rsp, lea rsp, a pop, a return or a jump |
| WholeFunction.SaneBeforeItsPop | src/win64_unwind.c:1356-1366 | if the epilogue begins with the frame register as the prologue set it up, the frame base is accepted at each of its boundaries until that register's own pop |
| FragmentExample.JumpBackIsMistaken | src/win64_unwind.c:1222-1254 | a concrete image of two fragments and a run: at the jump back into the parent, the return address of the fragment's last call, the unwinder answers with a word of the body's stack as the return address |
| DeclaredExample.DeclaredEpilogueUnwinds | src/win64_unwind.c:889-1055 | a concrete image with a version-2 record and a run, stopped after the pop of its declared epilogue: all conditions hold and the caller is found |
| FunctionExample.PoppedFrameRegisterFails | src/win64_unwind.c:1356-1366 | a concrete image and run: before the return, with the caller's frame register popped and below sixteen, the function cannot be unwound |
| ChainedFunction.ChainFindsCaller | src/win64_unwind.c:1410-1504 | a prologue split over a validated chain of one or more records, stopped at any boundary of its last part or after it: the chain loop undoes its parts record by record, across a frame register only the last record sets up, and finds the caller |
| ChainedFunction.ChainedFunctionUnwinds | src/win64_unwind.c:1311-1545 | through the whole of sl_win64_virtual_unwind at these boundaries: the caller where no epilogue is recognised, and where one is, the context of that epilogue |
| UnwindWalk.UnwindOneFrame | src/win64_unwind.c:1595-1692 | one turn of the second pass matches one step of its specification |
| UnwindWalk.UnwindToFrame | src/win64_unwind.c:1564-1695 | the second pass, on the caller's records, matches the specified walk: status, handler calls and target context |
| UnwindWalk.UnwindToFrameIsProper | src/win64_unwind.c:1587-1694 | in every run walked RSPs strictly increase, handlers see exactly the unwind flags plus TARGET_UNWIND at the target only, none runs beyond a non-zero target, success yields target IP and return value, and failure leaves the output context untouched |
| UnwindWalk.FlagsOfUnwind | src/win64_unwind.c:1587-1594 | the flags of the walk are UNWINDING, with EXIT_UNWIND exactly for a zero target, on top of the caller's |
| UnwindWalk.DispatchRaisedException | src/kernel32.c:1066-1158 | the first pass, on the caller's records, matches the specified search |
| UnwindWalk.PassesAgree | src/win64_unwind.c:1597-1693 | with handlers that search on and change nothing, pass two aimed at a table frame of pass one stops at exactly that frame if and only if every RSP up to it is valid, no earlier frame is at the target and no earlier table frame beyond it |
| UnwindWalk.UnwindReachesSearchedFrame | src/win64_unwind.c:1564-1694 | the whole call, argument checks included: it stops at that frame if and only if moreover the target is not below the starting RSP and the target address is that of a PE module |
| SearchPass.SearchAnswers | src/kernel32.c:1066-1158 | every run of the first pass, with arbitrary handlers: each frame met is the caller of the one before, its handler is called with that frame's PC, entry, establisher and caller context, target 0 and the dispatch flags; execution resumes if and only if the exception is continuable and the last handler called, or with the frames exhausted the filter, said so |
| UnwindPass.UnwindAnswers | src/win64_unwind.c:1596-1694 | every run of the second pass, with arbitrary handlers: each frame left, each handler call, the exact cause of every status, and on success the target frame's context as its handler left it but for RAX and RIP |
| UnwindPass.UnwindCallAnswers | src/win64_unwind.c:1571-1594 | the call walks exactly when RSP may name a frame and the target may be unwound to; an address outside every module is told from every other bad argument, and the flags say what unwind it is |
| HandleTokens.DecodeEncode | src/handle_table.c:57-77 | a token decodes to the slot and generation it encodes |
| HandleTokens.EncodeDecode | src/handle_table.c:57-77 | only the token of a place decodes to it |
| HandleTokens.EncodeInjective | src/handle_table.c:57-60 | different places have different tokens |
| HandleTokens.TokenIff | src/handle_table.c:57-77 | a value decodes exactly when it is the tag 0x534c, a generation that is not zero and the ordinal of one of 256 slots |
| HandleTable.FindEmpty | src/handle_table.c:259-275 | the slot chosen is the first that is empty and not retired; none means there is none |
| HandleInvariant.InitialInv | src/handle_table.c:185-207 | a new table satisfies the counting invariant |
| HandleSteps.TrackerAddSteps | src/handle_table.c:120-151 | increments of the tracker under the lock keep references and activities counted, without overflow into each other |
| HandleSteps.TrackerDropSteps | src/handle_table.c:98-117 | a decrement passes the checks of tracker_drop and keeps the counts; the last reference frees the tracker |
| HandleSteps.RecordReferenced | src/handle_table.c:314-321 | taking a lease keeps every count |
| HandleSteps.RecordFreed | src/handle_table.c:158-173 | the last reference frees the record and leaves none for a slot, a lease or another thread |
| HandleSteps.RecordPublished | src/handle_table.c:235-282 | publication keeps every count and issues a place no earlier handle had |
| HandleSteps.SlotInvalidated | src/handle_table.c:341-378 | a close moves the slot's reference to the closing thread and makes its handles stale |
| HandleSteps.SlotsTaken | src/handle_table.c:209-224 | destruction moves every slot's reference to the destroying thread |
| HandleSteps.LockLeft | src/handle_table.c:86-88 | leaving the lock hands each reference to the lease or release it was taken for |
| HandleRuns.RunKeepsInv | src/handle_table.c:98-403 | over every interleaving of any number of threads each record's count is its slot share, its leases and the pending drops, and the tracker counts the table, the live records and the activities |
| HandleRuns.NeverFaults | src/handle_table.c:98-173 | no abort and no use of freed memory is reachable |
| HandleGuarantees.LeasedIsLive | src/handle_table.c:158-173 | no object is destructed, or being destructed, while leased or named by a slot |
| HandleGuarantees.DestructedOnce | src/handle_table.c:158-173 | each object is destructed at most once, and only after publication |
| HandleGuarantees.NothingLeaks | src/handle_table.c:209-233 | once the table is destroyed and all leases are released, every object was destructed exactly once and the tracker is freed |
| HandleGuarantees.TrackerFreedLast | src/handle_table.c:98-117 | the tracker is freed only when the table has let go, every object is gone and no thread is inside an operation, also when leases or unlocked closes outlive the table |
| HandleGuarantees.TrackerFreedOnce | src/handle_table.c:98-117 | after that nothing can happen: it is freed once and never used again |
| HandleGuarantees.HandlesDistinct | src/handle_table.c:262-275 | no handle value is issued twice over the table's whole life |
| HandleGuarantees.CloseEndsHandle | src/handle_table.c:302-306 | the step that closes a handle ends its resolution |
| HandleGuarantees.ClosedNeverResolves | src/handle_table.c:302-306 | a handle that was issued and no longer resolves never resolves again |
| HandleGuarantees.HandleNamesOneRecord | src/handle_table.c:302-321 | as long as a handle resolves it names one and the same record |
| HandleGuarantees.RetiredForever | src/handle_table.c:175-183 | a slot retired at the last generation stays retired: no handle of it resolves and none is issued |
| HandleCalls.InsertPublishes | src/handle_table.c:259-275 | an insert's handle resolves at once, to a record with the kind and object inserted and one reference |
| HandleCalls.InsertPublishesItsArguments | src/handle_table.c:235-282 | over every interleaving an insert publishes a new record of its own kind and object with one reference, in the slot that was the first free one when it scanned, and gives out that slot's handle |
| HandleCalls.AcquireLeasesItsRecord | src/handle_table.c:284-326 | over every interleaving the lease handed out is of the record that the handle named, of the kind asked for, at an instant of the call |
| HandleCalls.CloseTakesItsRecord | src/handle_table.c:341-378 | over every interleaving the slot a close empties is its handle's, and the record it drops was that handle's, of the kind asked for |
| HandleCalls.InsertRefusedIff | src/handle_table.c:253-276 | under the lock an insert goes on exactly when the table is not being destroyed, has a free slot and tracker references left; a full table is told from the other two |
| HandleCalls.AcquireRefusedIff | src/handle_table.c:304-313 | an acquire passes its first checks exactly when its handle serves a record of the kind whose count has room; no record, another kind and no room are each told |
| HandleCalls.AcquireActivityRefusedIff | src/handle_table.c:140-151 | its second check refuses, as an invalid state, exactly when the tracker's references or activities are at their limit, and changes nothing |
| HandleCalls.CloseRefusedIff | src/handle_table.c:355-369 | a close goes on exactly when its handle serves a record of the kind and the tracker has room; no record, another kind and no room are each told |
| HandleCalls.PrepareRefusedIff | src/handle_table.c:380-396 | clone preparation succeeds exactly when the table is not being destroyed, no lease exists and no thread is inside an activity |
| HandleHistory.RecordStays | src/handle_table.c:157-173 | from its publication until it is freed a record keeps its kind and object |
| HandleHistory.ServesInserted | src/handle_table.c:235-326 | whenever a handle resolves after the insert that gave it out, it is to that insert's record, with the kind and object inserted |
| HandleHistory.AcquireLeasesInserted | src/handle_table.c:235-326 | from insert to acquire, over every interleaving: the lease is of the very object inserted, and only the kind inserted gets it |
| HandleHistory.RetiredWhenExhausted | src/handle_table.c:175-183 | a slot is retired only after a handle was given out in it for every one of its generations |
| HandleHistory.DestroyedNeverResolves | src/handle_table.c:209-234 | the step that takes the slots for destruction empties all of them, and no handle resolves from then on |
| HandleFreeze.FrozenStandsStill | src/handle_table.c:380-396 | when a clone preparation has succeeded no lease exists, no destructor runs and every other thread only waits |
| HandleFreeze.NothingMovesWhileFrozen | src/handle_table.c:380-403 | until the matching completion no slot, record count, tracker value or anything else of the table changes in any interleaving |
| LocalSteps.RunKeepsInv | src/kernel32.c:390-535 | over every interleaving of alloc, free, get and set the slot protocol's invariant holds |
| LocalLinear.RunsAreLinearizable | src/kernel32.c:390-535 | every run is linearizable: each allocation, free, callback, get, set, refusal and each failed allocation that met an instant with every index taken takes effect at one instant inside its call, and in the order of these instants they form a sequential history: access only while the index is owned under that generation, gets returning what the thread last set, refusals only while it is not owned, failed allocations only while every index is owned or held by a call that gives it out or takes it back |
| LocalLinear.CallsKeepOrder | src/kernel32.c:390-535 | that order respects the calls: what was logged before another call began comes before it |
| LocalLinear.CheckedEntry | src/kernel32.c:472-535 | at its final check a successful access finds its index owned under its generation, and a get its value |
| LocalGuarantees.SeenIsHistory | src/kernel32.c:455-535 | what a call is said to have seen is exactly the set of statuses its index had during the call |
| LocalGuarantees.RefusedWasDead | src/kernel32.c:418-535 | a refused get, set or free met its index unallocated at some instant of the call |
| LocalGuarantees.ConfirmedWasLive | src/kernel32.c:486-497 | an access that passed its compare-and-exchange found the index allocated at that instant |
| LocalGuarantees.AccessIsExact | src/kernel32.c:472-535 | a successful get returns exactly what its thread last set under the generation live at its final check, or NULL; a successful set took effect, with its caller's value, under the generation live at its final check |
| LocalGuarantees.FullMeansTaken | src/kernel32.c:390-416 | an allocation that runs out of indexes met every index taken at some instant of the call |
| LocalFull.ExhaustedIffRetaken | src/kernel32.c:390-416 | an allocation that runs out of indexes ends with every index taken if and only if each index given back during the call was taken again |
| LocalFull.UndisturbedIsRight | src/kernel32.c:390-416 | so it is right, and has its place in the linear order, whenever no index is given back during the call |
| LocalFull.FullWithoutBeingFull | src/kernel32.c:390-416 | a concrete run of three threads in which an allocation runs out of indexes though at every instant some index is free; one given back during the call was left free |
| LocalGuarantees.NotifiesIffDue | src/kernel32.c:433-449 | a free runs the callback exactly when asked to, the allocation named one and the thread holds a value, and gives it that value |
| LocalGuarantees.NotifiesForItsCall | src/kernel32.c:433-449 | the same from the call on: index and flag are those its caller gave |
| LocalCalls.EntryAnswersItsCall | src/kernel32.c:390-535 | over every interleaving each logged answer is that of one call of its thread and carries that call's index, value, callback and flag |
| LocalCalls.EndedCallAnswered | src/kernel32.c:390-535 | every call that has ended has logged exactly one result |
| LocalValues.StoredWasSet | src/kernel32.c:501-535 | between its calls a thread's array holds only what the thread last set there under the value's generation: a refused set leaves nothing behind |
| LocalValues.FreeEmptiesItsValue | src/kernel32.c:433-452 | an index is given up only once the freeing thread's own value there is gone |
| LocalGuarantees.OneOwner | src/kernel32.c:390-453 | no index has two owners without a free between them |
| LocalGuarantees.FreshReadsNull | src/kernel32.c:390-416 | a freshly allocated index reads NULL in every thread that has not set it since |
| Relocation.PatchInPlace | src/loader.c:139-158 | one word of the mapping moves by the shift, with wrap-around, and nothing else changes |
| Relocation.ProcessEntries | src/loader.c:126-171 | the inner loop over the mutating bytes computes the entries function |
| Relocation.ProcessRelocations | src/loader.c:107-175 | the nested loops compute the blocks function; the validating pass changes no byte |
| Relocation.BlocksApply | src/loader.c:107-175 | a pass over the mutating image finds exactly what the untouched directory says, applies it, and changes no byte of the directory |
| Relocation.MappedImage.ApplyRelocations | src/loader.c:383-427 | relocation is all or nothing: bytes and load base change together, or not at all, with the status of the first failing check |
| RelocationLaws.NamedWordMoves | src/loader.c:139-158 | a word named once and overlapping no other named word moves by exactly one shift |
| RelocationLaws.OutsideUntouched | src/loader.c:107-175 | bytes outside every named word stay as they were |
| RelocationLayout.DirectoryReadsBack | src/loader.c:107-175 | any list of blocks, each a page, kinds and 12-bit offsets, written as bytes in either word size, reads back to exactly the RVAs page + offset in order, or to the first fault: a wrapping RVA, the other size's kind, a word past the image or in the directory |
| RelocationLayout.AcceptedIffWritten | src/loader.c:107-175 | a directory of any bytes is accepted if and only if it is such a list without a fault |
| RelocationLayout.WrittenRelocatesIff | src/loader.c:383-427 | an image with a written directory relocates exactly when the mapping may change and be based there, and is there already or has a directory without a fault; otherwise nothing changes |
| RelocationLayout.WrittenRelocates | src/loader.c:383-427 | one relocation moves the word at page + offset of each entry by the distance between the bases, in the word's own arithmetic; bytes that no entry names stay |
| RelocationLayout.RefusalsTold | src/loader.c:386-410 | each refusal before the directory is read has its own exact cause, and nothing refused changes |
| RelocationLaws.SitesStay | src/loader.c:107-175 | after a successful relocation the directory names the same words |
| RelocationLaws.RelocateTwice | src/loader.c:383-427 | for words pairwise disjoint or identical, relocating A to B to C equals A to C, with the same status |
| RelocationLaws.RelocateBack | src/loader.c:383-427 | relocating A to B to A restores every byte |
| RelocationOverlap.ReturnsIffApart | src/loader.c:383-427 | an image whose directory names any number of words, each once, comes back from every move to every base, whatever it holds, if and only if no two of them share a byte |
| RelocationOverlap.OverlapNotRestored | src/loader.c:383-427 | a concrete image, accepted by every check: moved from base 1 to 0 and back it has one byte changed |
| PeImage.ParseSections | src/pe.c:189-215 | the section loop computes the section table or the first error |
| PeLayout.SectionReadsBack | src/pe.c:189-215 | a written section header reads back if its ranges lie in file and image, and is refused otherwise |
| PeLayout.TableReadsBack | src/pe.c:189-215 | a written section table reads back exactly when all its ranges lie in file and image |
| PeLayout.ImageReadsBack | src/pe.c:126-217 | a file that starts with headers written for an image parses to exactly that image if its sizes and ranges are sound, and is refused otherwise |
| PeFormat.ParseIff | src/pe.c:58-217 | any bytes whatever parse to an image if and only if every field of it stands where the format puts it and every size, count and range is sound |
| PeFormat.RefusalsTold | src/pe.c:58-217 | a file that is not DOS, one without the PE signature, another machine and another optional header are each told, exactly when they are |
| PeImage.Parse | src/pe.c:126-217 | parsing computes the image or the first error, and a parsed image is well formed: headers and section ranges lie in file and image |
| ImageViews.RvaFileWindow | src/pe.c:219-255 | the section loop computes the window: headers first, then the first section whose extent holds the RVA |
| ImageViews.FileWindow | src/pe.c:219-255 | every window is non-empty and lies inside the file |
| ImageViews.WindowIff | src/pe.c:219-255 | the file holds an RVA's bytes in the headers, for an RVA inside them, and otherwise in the raw range of the first section that claims the RVA, if it reaches it; the window ends where the range or the file does |
| ImageViews.PopulateMapping | src/loader.c:188-209 | the copy loop leaves headers and raw sections, in order, over zeros |
| ImageViews.ParsedSectionsMap | src/loader.c:188-209 | for a parsed image the mapping's own range checks never fail |
| ImageViews.WindowIsMapped | src/pe.c:219-255 | if headers and raw section ranges are pairwise disjoint, every window equals, byte for byte, the same RVAs of a fresh mapping |
| ImageViews.ReadsAgree | src/pe.c:263-303 | integers read through the file are the ones the mapping holds |
| ImageViews.StringsAgree | src/pe.c:305-319 | a string read through the file is the mapped string up to its zero |
| ImageViews.MappedByte | src/loader.c:188-209 | each byte of the mapping is that of the last raw range over it, else of the headers, else zero |
| ImageViews.AgreesIffOwned | src/pe.c:219-255 | a window agrees with the mapping for every content of the file if and only if each of its bytes is mapped from its own place in the file |
| PeLayout.OverlapDisagrees | src/pe.c:219-255 | a file that parses, with two sections at one RVA: the file answers from the first, the mapping from the last |
| PeExports.FindExportByName | src/pe.c:597-626 | the loop over the name table computes the lookup by name |
| PeExports.FoundNameIsBuilt | src/pe.c:597-626 | the first entry of the name decides, and every entry before it is readable and different |
| PeExports.NameAndOrdinalAgree | src/pe.c:559-645 | an export found by name is the one its ordinal finds |
| ExportLayout.NameReadsBack | src/pe.c:597-626 | with a written export table a name answers the function of its first entry, code or forwarder, and a name not listed is not found |
| ExportLayout.OrdinalReadsBack | src/pe.c:628-645 | an ordinal answers the function at that ordinal, counted from the table's base, and one outside the table is not found |
| ExportLayout.DirectoryTold | src/pe.c:524-557 | an image without an export directory is told from one with a bad directory |
| ModuleRegistry.EqualIgnoreCase | src/module.c:19-33 | the comparison loop decides equality of the ASCII-folded names |
| ModuleRegistry.CheckNativeTable | src/module.c:130-147 | the nested loops accept exactly the tables of valid exports without repeated name or ordinal |
| ModuleRegistry.RegistryTable.FindModule | src/module.c:71-82 | the first module of that name ignoring case, or none |
| ModuleRegistry.RegistryTable.FindContract | src/module.c:51-63 | the first alias of that name ignoring case, or none |
| ModuleRegistry.RegistryTable.Register | src/module.c:84-111 | adding a PE module appends it or changes nothing, with the status of the first failing check |
| ModuleRegistry.RegistryTable.RegisterNative | src/module.c:113-159 | the same for a native module, whose table must be valid |
| ModuleRegistry.RegistryTable.RegisterAlias | src/module.c:161-189 | an alias is added only for a registered target, under that target's registered spelling |
| ModuleRegistry.AddKeeps | src/module.c:84-111 | names stay pairwise distinct ignoring case, alias targets registered, and nothing already registered moves |
| ModuleRegistry.AddNativeKeeps | src/module.c:113-159 | the same for native modules |
| ModuleRegistry.AddAliasKeeps | src/module.c:161-189 | the same for aliases |
| RegisteredModules.SameNameMeaning | src/module.c:11-33 | two names are the same if and only if they differ at most in the case of ASCII letters |
| RegisteredModules.LoadsIff | src/module.c:84-111 | a module is added exactly when its size and name are sound, the name is new and there is room; each refusal has its own exact cause and changes nothing |
| RegisteredModules.TableOkIff | src/module.c:126-147 | a table of native exports is valid if and only if each has a name or an ordinal and an address or a forwarder but not both, and no two share a name or an ordinal |
| RegisteredModules.NativeLoadsIff | src/module.c:113-159 | a native module is added exactly when its name is sound and new, there is room and its table is valid; each refusal has its own exact cause |
| RegisteredModules.AliasResolves | src/module.c:161-189 | an alias is added exactly for a registered target, and then stands for the module its target stood for; each refusal has its own exact cause |
| RegisteredModules.NewModuleResolves | src/module.c:191-214 | a new module resolves under its name, in any case of letters |
| Forwarders.NameForwarder | src/module.c:254-298 | "module.symbol" forwards to exactly that symbol of exactly that module, which gets ".dll" unless it has it |
| Forwarders.OrdinalForwarder | src/module.c:284-296 | "module.#n" forwards to ordinal n for every 32-bit n |
| Forwarders.ForwarderIff | src/module.c:254-298 | any string whatever forwards to a module and a symbol if and only if its last dot has text on both sides, the module's name with its ".dll" is shorter than 128, and what follows the dot is the symbol, or after a '#' a number of 32 bits |
| Forwarders.NumberIff | src/module.c:286-295 | a text is such a number exactly when it is white space, at most one sign and digits that fit 64 bits, with the value they denote |
| Forwarders.WithDllMeans | src/module.c:266-282 | ".dll" is added exactly to names that do not end in it, in any case of letters |
| Forwarders.OrdinalIsPlainIffDigitFirst | src/module.c:254-298 | the number text of every accepted ordinal forwarder is the plain decimal form of the ordinal if and only if it starts with a digit |
| Forwarders.SignedOrdinal | src/module.c:284-296 | a whole forwarder string with a space and a minus sign in its number is accepted, and names ordinal 1 |
| SymbolResolution.ResolvesIffHopsArrive | src/module.c:300-396 | a symbol resolves to an answer if and only if iterating the one-hop forward relation arrives at it within sixteen hops |
| SymbolResolution.DepthIsBounded | src/module.c:304-306 | the forward depth never exceeds sixteen |
| SymbolResolution.LimitIffHopsGoOn | src/module.c:304-306 | the limit error occurs exactly when seventeen hops all forward |
| SymbolResolution.CycleEndsInLimit | src/module.c:300-396 | a forwarder cycle, reached after any number of hops, ends in the limit error |
| SymbolResolution.ResolvesIffTaken | src/module.c:191-214 | a name stands for a module exactly when it is a module or alias name |
| SymbolResolution.ModuleStays | src/module.c:191-214 | a name that stands for a module keeps standing for it in every valid extension |
| SymbolResolution.ResolutionStays | src/module.c:300-396 | a symbol that resolves keeps module, address and depth in every valid extension of the registry; so does every failure but a missing module |
| SymbolResolution.RegisterAllKeeps | src/module.c:84-189 | any sequence of registrations, failing ones included, keeps the registry's invariant and everything in its place |
| SymbolResolution.AnswersStay | src/module.c:300-396 | so a symbol that resolves gives the same answer after every later sequence of registrations |
| RegisteredModules.LoadedSymbolResolves | src/module.c:300-396 | a name or ordinal that a loaded module's written table lists resolves to the load base plus the RVA written, if that does not wrap; a forwarder goes on as written |
| RegisteredModules.NativeSymbolResolves | src/module.c:300-396 | a name or ordinal of a valid native table resolves to that export's address, or goes on by its forwarder |
| RegisteredModules.UnknownTold | src/module.c:300-396 | a name of no use as a module's and one that nothing goes by are told apart |
| RegisteredModules.AbsentTold | src/module.c:300-396 | a symbol that a native module does not list is told from a module that is not there |
| Wildcards.WildcardMatches | src/search.c:289-323 | the loop with its saved star computes the greedy scan, and ends |
| Wildcards.GreedyIsSound | src/search.c:289-323 | a true answer is right for every pattern and every name |
| Wildcards.GreedyIsComplete | src/search.c:289-323 | for a name without '*' every name the pattern means is accepted |
| Wildcards.GreedyIsExactIffNoStar | src/search.c:301-310 | the scan gives every pattern its declared meaning if and only if the name has no '*', because the literal test comes before the star test |
| Unicode.DecodeUtf8 | src/unicode.c:5-52 | the continuation loop computes the decoding of one code point |
| Unicode.DecodeEncode8 | src/unicode.c:5-52 | the UTF-8 form of a scalar value decodes to it, whatever follows (section 3 of RFC 3629) |
| Unicode.EncodeDecode8 | src/unicode.c:5-52 | only the shortest form decodes: what was consumed is the UTF-8 form of what was found |
| Unicode.DecodeEncode16 | src/unicode.c:145-170 | the UTF-16 form of a scalar value decodes to it (sections 2.1 and 2.2 of RFC 2781) |
| Unicode.EncodeDecode16 | src/unicode.c:145-170 | what was consumed is the UTF-16 form of what was found |
| Transcoding.Utf8RequiredUnits | src/unicode.c:54-80 | the length pass counts exactly the units of the converted text, or fails with it |
| Transcoding.Utf8ToUtf16 | src/unicode.c:82-143 | the converter writes the UTF-16 form of the text and nothing beyond it; on any failure the buffer is unchanged |
| Transcoding.Utf16RequiredBytes | src/unicode.c:185-211 | the length pass counts exactly the bytes of the converted text, or fails with it |
| Transcoding.Utf16ToUtf8 | src/unicode.c:213-287 | the converter writes the UTF-8 form of the text and nothing beyond it; on any failure the buffer is unchanged |
| TranscodingLaws.WellFormed8 | src/unicode.c:54-80 | strict reading accepts exactly the concatenations of UTF-8 forms of scalar values |
| TranscodingLaws.WellFormed16 | src/unicode.c:185-211 | strict reading accepts exactly the concatenations of UTF-16 forms of scalar values |
| TranscodingLaws.ThereAndBack8 | src/unicode.c:82-143 | UTF-8 to UTF-16 to UTF-8 is the identity on well-formed text |
| TranscodingLaws.ThereAndBack16 | src/unicode.c:213-287 | UTF-16 to UTF-8 to UTF-16 is the identity on well-formed text |
| TranscodingLaws.LossyIsStrict8 | src/unicode.c:82-143 | on well-formed UTF-8 lossy conversion is strict conversion |
| TranscodingLaws.LossyIsStrict16 | src/unicode.c:213-287 | on well-formed UTF-16 lossy conversion is strict conversion |
| TranscodingLaws.LossySettles8 | src/unicode.c:82-143 | lossy output is well formed, and a second lossy round trip changes nothing |
| TranscodingLaws.LossySettles16 | src/unicode.c:213-287 | the same from UTF-16 |
| LossyReading.LossyIff8 | src/unicode.c:54-80 | lossy reading of any bytes: the scalar value where the encoding of one begins, and U+FFFD for every other byte, one for one |
| LossyReading.LossyIff16 | src/unicode.c:185-211 | the same for UTF-16: an unpaired surrogate is U+FFFD, one for one, and nothing else is |
| SearchPatterns.NormalizeDirectory | src/search.c:175-216 | the in-place loop leaves the joined stack resolution of the components in the buffer, or fails exactly when the resolution does |
| SearchPatterns.NormalizePattern | src/search.c:101-246 | the whole normaliser computes directory and pattern, or the first fault |
| SearchPatternLaws.DirectoryIsClean | src/search.c:175-216 | the directory has exactly the components of the stack: none empty, ".", ".." or with a wildcard |
| SearchPatternLaws.ClimbsIffAbove | src/search.c:189-203 | the climb test fires exactly when a walk along the components goes above its start |
| SearchPatternLaws.LeafIsSuffix | src/search.c:159-166 | the pattern is unit for unit what follows the last separator of the original UTF-16 path |
| SearchPatternLaws.BadEncodingIffPath | src/search.c:217-240 | only the path itself can be badly encoded: decoding the leaf never fails |
| SearchMeaning.PartsOfWoven | src/search.c:175-188 | however many separators stand before, between and behind them, a path has exactly its components |
| SearchMeaning.ResolvedIsWalk | src/search.c:175-216 | the directory names, level by level, the components by which a walk along the path went down for good |
| SearchMeaning.ResolvesIff | src/search.c:175-216 | a parent path resolves exactly when no name in it has a wildcard and its walk never goes above its start |
| SearchMeaning.RefusedIff | src/search.c:101-246 | a path that is text is refused exactly for a drive colon, a separator at either end, a leaf of dots, a wildcard in a parent or a walk above the start |
| SearchMeaning.BadPathsTold | src/search.c:101-137 | an empty path, one with a zero unit and one that is not text are told apart |

## Left out

- Atomics are sequentially consistent steps: memory orders (acquire, release, relaxed) are not modelled.
- Allocation failure: `malloc` and `calloc` returning NULL is an error return before any state changes, so it is an event that does not happen here.
- Null pointers passed as arguments, and the argument checks for them.
- Context pointers: the unwinder's optional table of where each register was restored from.
- The thread-local link between nested handler unwinds (src/win64_unwind.c:63-108): it lives in abandoned host stack frames.
- Nested and collided unwinds: the code refuses those dispositions, and so does the model.
- The top-level filter and the console output after an unhandled exception: the filter is an arbitrary verdict.
- WholeFunction.FunctionUnwinds: a version-2 record is taken to declare its epilogues where they are; an address it wrongly declares is no boundary of the body.
- WholeFunction.BodyReachesPops: that the moves before an epilogue load what the prologue saved is a condition on the state, not executed instructions.
- InterruptFrame.InterruptedContextFound: a machine frame is taken in an unchained record; one below a chain is covered only by ChainMeaning and UnwindFootprint.
- UnwindAgreement.SimulatorFindsCaller: a mirrored epilogue ends in a return or a tail jump; after one that also pops arguments (`ret imm16`) the caller's RSP would be another.
- UnwindV2.MachineFrameAgrees: with an error code the epilogue walk expects the code already removed, so the two start from different stacks.
- HandleRuns.RunKeepsInv: a destructor is one step and does not call back into the table.
- Handle creation's argument checks; a handle that does not decode is answered without a step, before the lock.
- HandleTable.FindEmpty: the slot scan under the lock is one step with the access before it, since nothing else may write slots then.
- LocalLinear.RunsAreLinearizable: generations are unbounded, so the skip of generation zero after 2^64 allocations is not modelled.
- LocalLinear.RunsAreLinearizable: leaves out the failed allocations that had some index free at every instant of their call: their answer is right at none.
- An FLS callback is one step and does not call TLS or FLS functions itself.
- RelocationOverlap.ReturnsIffApart: is about directories that name each word once; for one that repeats a word only `RelocationLaws.RelocateBack` is proved.
- Relocation.MappedImage.ApplyRelocations: mapping, page protection and import binding (the rest of src/loader.c) are host calls or plain loops.
- Import tables (src/pe.c:321-498): the same reads as exports, in a loop with a callback.
- Module handles and last-error codes: single lookups or assignments.
- Transcoding.Utf8RequiredUnits: lengths are unbounded, so the overflow check of the length pass is not modelled.
- Transcoding.Utf16RequiredBytes: the same overflow check, which needs text of more than a third of the address space.
- SearchPatterns.NormalizePattern: the terminating zero units of the returned strings, and the directory walk and file-data conversion that follow in src/search.c.
- Locale: `strtoul` is modelled for the C locale.
- Syscalls, thread start, guest code, assembly thunks, heap headers, locale tables, CLI and process set-up: finite tables, single branches or outside the code.
