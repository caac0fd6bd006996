# ZettaBridge: verified core

ZettaBridge runs 32-bit ARM Android code inside a 64-bit process. This project models the parts of it
whose correctness is not visible in one function, and proves what they promise:

- **Concurrent runtime.** Retirement of the process signal target, the carrier lease, the service
  command queue, processor ids, the hand-over of pending signals, and the lock-free shorty cache. Each
  is a state machine: one step is one mutex section or one atomic operation, any number of threads and
  handlers interleave freely, and the results hold in every reachable state or over every run. The park
  word is an unbounded counter; a futex wait is an atomic compare-and-sleep.
- **Guest address space.** The page-flag table, mmap2, munmap, mprotect, brk and text-relocation sealing
  with their side tables, the ELF loader, the maps listing, the initial stack, and signal frames.
- **Binary formats.** The GNU-hash symbol counter, the in-place ELF fixup and its detector, control
  messages in two layouts, and the binary-AXML manifest rewriter with the parser it must agree with.

Code that updates things in place is a class or a method with loops, proved equal to a specification
function or to the property itself; the laws are lemmas about those specifications. Host calls (mmap,
mprotect, allocation, random bytes) are arguments that say whether they succeed or what they return.
Integers are unbounded; where the source's 32-bit arithmetic can wrap, the wrap is written out. An
exception in the Python tools is `None`.

`dafny verify dfyconfig.toml` checks everything.

## What the proofs found

Some promises hold only under a condition. Each is stated with that condition for all inputs, and with an
input or a run from the initial state on which it fails:

- The length check of control_to_host is a 32-bit sum. A length near 2^32 wraps it, and the message is copied
  from outside the guest's buffer (`ControlMessages.WrappingExample`, 24 bytes). Every accepted message lies
  inside the buffer exactly if no length on the way wraps (`ControlMessages.WalkStaysInsideIff`).
  control_to_guest has such a sum too; it is exact that it does no harm unless the sum wraps
  (`ControlMessages.ControlToGuest`, `ControlMessages.BigMessageOverruns`), which no list below 2^31 bytes does
  (`ControlMessages.KernelListsAreSane`).
- Publishing a signal target over another one is safe exactly if no handler holds the old one
  (`SignalTarget.PublishKeepsInvIff`). Otherwise clearing it later does not wait for its reader, and a handler
  touches a freed thread (`SignalTarget.FreedThreadTouched`). The rule in the source, never to overwrite, is
  enough (`SignalTarget.DemandSuffices`).
- A finished ordinary thread gives its processor id back before its JIT is freed, so two JITs can share
  one id for a while (`ProcessorIds.SharedIdRun`); borrowers do not have this window.
- A thread that exits drops what it has pending, and nothing else is ever dropped
  (`SignalTransfer.OnlyExitDrops`, `SignalTransfer.ExitDropsSignal`); a borrower and its carrier drop nothing
  during the lease (`SignalTransfer.NothingDroppedInLease`).
- A non-executable file mapped at 0 over the whole 4 GiB truncates the length of its record to 0, and recorded
  text-relocation pages lose their eligibility (`AddressSpace.EligibilityLost`; `AddressSpace.Mmap2KeepsInvIff`
  is exact).
- load_elf leaves the page table as it was exactly if the unmap that undoes a failed load succeeds
  (`ElfLoader.RollBack`).
- A signal frame that does not fit the alternate stack leaves the stack pointer outside it, and the next
  delivery overwrites the frame (`SignalNest.NestedOnAltIff` is exact); after both returns the thread has the
  wrong registers (`SignalNest.SmallAltStackLosesThread`). sigreturn does not bring back an alternate stack that
  the handler replaced while running on it (`SignalNest.AltStackNotRestored`; `SignalNest.AltRestoredIff` is
  exact).
- A library whose names lie inside its own dynamic table can be changed by one run of the fixup and refused by
  the next (`ElfFixups.SecondRunFails`). It cannot if no entry that is written holds a byte of the headers or the
  strings (`ElfFixups.FixIsIdempotent`). The fixup takes up to 1024 program headers and the marker's detector
  only 64, so the marker is found exactly up to there (`ElfFixups.MarkerMeansTextrel`).
- The manifest rewriter raises the attribute count in place; if the attributes start inside the chunk's
  own header, that count is also part of the first attribute. `AxmlExamples.OverlappingManifest` is a whole
  manifest that inject accepts and whose attribute {a}x comes out as {b}x. The tree is preserved exactly when the
  count and the attribute do not share a changed byte (`AxmlPreserves.InjectPreservesIff`). The checks that
  inject makes on its own output never fail once the output parses (`AxmlPreserves.RecheckPasses`), so they do
  not catch this.
- Strings with a NUL in them and an auxiliary vector with an AT_NULL in it are read back only up to there
  (`InitialStack.WholeStringIff`, `InitialStack.WholeAuxvIff`).

core/include/zb/initial_stack.h says that the returned stack pointer is 8-byte aligned; the code aligns it
to 16 bytes, and so does the model.

## Modules

| module | models |
|---|---|
| SignalTarget, ProcessorIds, SignalTransfer, CarrierLease, ServiceQueue, ShortyCache | the concurrent protocols |
| GuestMemory, AddressSpace, ElfLoader, ProcMaps, InitialStack | the guest address space |
| SignalFrames, SignalNest | signal frames and nested handlers |
| Wrappers, Words | options, and little-endian words in byte sequences |
| GnuHash, ElfFixups, ControlMessages | ELF and socket formats |
| AxmlStrings, AxmlParser, AxmlEdit, AxmlProcesses, AxmlProviders, AxmlInject, AxmlPreserves | the manifest rewriter |
| AxmlExamples | two manifests it accepts |

## Model

| member | source | states |
|---|---|---|
| `SignalTarget.HandlerStepCounts` | core/src/signals.cpp:66-84 | the reader counter is exactly the number of handlers between their increment and decrement, through every handler step |
| `SignalTarget.StepKeepsInv` | core/src/signals.cpp:66-127 | every step of any handler or owner keeps: counter exact, a loaded thread is still published or its owner waits for readers |
| `SignalTarget.RunKeepsInv` | core/src/signals.cpp:66-127 | the same over every run that never publishes over a target a handler holds |
| `SignalTarget.RunKeepsRetired` | core/src/signals.cpp:96-127 | once retired, a thread stays out of every handler's hands in every continuation |
| `SignalTarget.RetirementIsSafe` | core/src/signals.cpp:96-127 | after clear_process_signal_target(t) returned, no handler holds t through the target and none can acquire it, for ever |
| `SignalTarget.NoTouchAfterFree` | core/src/process.cpp:692-700 | no handler touches a freed guest thread, on the fast path or through the target |
| `SignalTarget.WaiterWaitsForOthers` | core/src/signals.cpp:102-127 | the waiting owner is never waiting for itself: some counted handler on another host thread can move |
| `SignalTarget.OverwritingBreaksRetirement` | core/src/signals.cpp:96-101 | from any state with a held target that can be overwritten, a run leads to a handler holding a freed thread |
| `SignalTarget.PublishKeepsInvIff` | core/src/signals.cpp:96-101 | publishing keeps the invariant exactly if no handler holds the thread it replaces |
| `SignalTarget.DemandSuffices` | core/src/signals.cpp:97-98 | a run that never overwrites a published target meets that condition throughout |
| `SignalTarget.FreedThreadTouched` | core/src/signals.cpp:66-127 | a run from the initial state after which a handler is about to touch a freed thread |
| `ServiceQueue.StepConserves` | core/src/library_runtime.cpp:324-338 | answered, held and queued commands are together the accepted ones, in order, each once, through every step |
| `ServiceQueue.RunKeepsInv` | core/src/library_runtime.cpp:202-227 | conservation and the wake obligation hold over every run |
| `ServiceQueue.FinishWake` | core/src/guest_thread.cpp:175-182 | finishing an outstanding wake() ends the sleep of a service that has work |
| `ServiceQueue.NoLostWakeup` | core/src/library_runtime.cpp:202-227 | if the service sleeps while a command is queued or a signal deliverable, some waker still owes its wake |
| `ServiceQueue.AtMostOneAnswer` | core/src/library_runtime.cpp:324-338 | no command is answered twice, and answers follow the order of acceptance |
| `ServiceQueue.EveryCommandAnswered` | core/src/library_runtime.cpp:387-400 | when the runner is done, by serving or by the shutdown drain, exactly the accepted commands are answered |
| `CarrierLease.StepKeepsInv` | core/src/library_runtime.cpp:261-313 | every step of a carrier, borrower or destructor keeps the lease invariant |
| `CarrierLease.RunKeepsInv` | core/src/library_runtime.cpp:453-496 | the same over every run |
| `CarrierLease.LeasesAreSafe` | core/src/library_runtime.cpp:261-313 | a record is in available exactly once iff listed; listed or leased means its carrier is in PARK; a leased record has exactly one lessee |
| `CarrierLease.StateOnlyAdvances` | core/src/library_runtime.cpp:46-54 | a record moves only from Available to Leased to Released |
| `CarrierLease.TouchesStayInPark` | core/src/library_runtime.cpp:516-533 | a borrower touches a carrier's thread only while that thread exists and is inside PARK |
| `CarrierLease.ReleaseWakesCarrier` | core/src/library_runtime.cpp:516-533 | a sleeping carrier whose record is Released is about to be woken by its releaser |
| `ProcessorIds.IdSet.Allocate` | core/src/process.cpp:353-362 | reserves the lowest free id and no other, or reports that none is free |
| `ProcessorIds.IdSet.Reset` | core/src/process.cpp:692-700 | frees exactly that id |
| `ProcessorIds.RunKeepsInv` | core/src/process.cpp:637-670 | over every run the set bits are exactly the ids of the reserving threads |
| `ProcessorIds.IdsNeverClash` | core/src/process.cpp:394-434 | all reserving threads and borrowers hold pairwise distinct ids whose bits are set, and no other bit is set |
| `ProcessorIds.BorrowerKeepsIdWhileJitLives` | core/src/process.cpp:419-434 | a borrower's id stays reserved until its JIT is freed |
| `ProcessorIds.SharedIdMeansFinished` | core/src/process.cpp:692-700 | two JITs share an id only if one belongs to a finished ordinary thread |
| `ProcessorIds.FinishedThreadSharesId` | core/src/process.cpp:692-700 | and that does happen, from any state in which a registered thread has the lowest free id |
| `ProcessorIds.SharedIdRun` | core/src/process.cpp:692-700 | a run from the initial state to two JITs with id 0 |
| `SignalTransfer.PendingSignals.Post` | core/src/guest_thread.cpp:166-173 | adds the signal if its number is valid, and nothing else |
| `SignalTransfer.PendingSignals.Take` | core/src/guest_thread.cpp:184-195 | removes the lowest unblocked pending signal, or reports that there is none |
| `SignalTransfer.Drain` | core/src/process.cpp:419-434 | terminates, and the carrier has everything the borrower held |
| `SignalTransfer.RouteWf` | core/src/process.cpp:375-392 | a post by tid goes to an existing thread, the borrower before the carrier |
| `SignalTransfer.PostsOnlyMove` | core/src/process.cpp:375-392 | no step forgets, reorders or invents a posted signal |
| `SignalTransfer.RunKeepsInv` | core/src/process.cpp:394-434 | over every run the history of posts and the pending words agree in both directions |
| `SignalTransfer.SignalsAreConserved` | core/src/process.cpp:394-434 | every accepted post is pending on an existing thread, in a drain's hand, taken for delivery, or dropped by a thread that exited; and every pending signal was posted |
| `SignalTransfer.OnlyExitDrops` | core/src/process.cpp:692-700 | a post is dropped only by the exit of its own thread, which is neither a borrower nor a leased carrier |
| `SignalTransfer.NothingDroppedInLease` | core/src/process.cpp:394-434 | while a lease lasts, whatever runs, nothing on its borrower or carrier is dropped |
| `SignalTransfer.ExitDropsSignal` | core/src/process.cpp:692-700 | a run from the initial state in which an exiting thread drops a signal |
| `SignalTransfer.DrainStep` | core/src/process.cpp:419-434 | no step of any thread loses a held signal or adds work to the drain, and each of its own steps reduces it |
| `SignalTransfer.DrainCanMove` | core/src/process.cpp:419-434 | the drain is never stuck |
| `SignalTransfer.ReturnHandsOverEverything` | core/src/process.cpp:419-434 | after destroy_borrower the carrier's pending set contains everything the borrower still held, whatever ran in between |
| `SignalTransfer.ExchangeTakesLowest` | core/src/guest_thread.cpp:184-195 | take_signal yields the lowest unblocked number pending when its exchange succeeds |
| `ShortyCache.RunKeepsInv` | guest/zbjni/zbjni.c:45-86 | over every interleaving, with any allocation failures, published and private memory stay apart |
| `ShortyCache.StepEntries` | guest/zbjni/zbjni.c:53-75 | a step leaves every published entry and publishes at most one more |
| `ShortyCache.StepTable` | guest/zbjni/zbjni.c:53-68 | a page slot is written once and its page is never freed |
| `ShortyCache.ResultIsHosts` | guest/zbjni/zbjni.c:79-86 | every result is the host's: NULL only for an id it does not know, else its shorty, from the caller's buffer or the cache |
| `ShortyCache.PublishedForever` | guest/zbjni/zbjni.c:53-75 | what is published stays in its slot, allocated and unchanged, after any continuation |
| `ShortyCache.OnlyPrivateMemoryFreed` | guest/zbjni/zbjni.c:53-75 | only unpublished memory is freed, and nobody else refers to it |
| `GuestMemory.Memory.SetFlags` | core/src/guest_memory.cpp:51-53 | gives exactly the pages of the range the flags |
| `GuestMemory.Memory.MapPages` | core/src/guest_memory.cpp:55-72 | map_anon and map_file: refuses an invalid range, otherwise maps exactly its pages |
| `GuestMemory.Memory.ProtectPages` | core/src/guest_memory.cpp:74-80 | changes exactly the pages of a wholly mapped range, or nothing |
| `GuestMemory.Memory.Unmap` | core/src/guest_memory.cpp:82-89 | clears exactly the pages of the range, or nothing |
| `GuestMemory.Memory.FindFree` | core/src/guest_memory.cpp:91-104 | the highest wholly free run of that length below the limit and above 0x10000, and 0 iff there is none |
| `GuestMemory.FindFreeUnique` | core/src/guest_memory.cpp:91-104 | that promise determines the result |
| `GuestMemory.Memory.IsRangeFree` | core/src/guest_memory.cpp:106-113 | true iff the range is valid and every page in it is free |
| `GuestMemory.Memory.IsAccessible` | core/src/guest_memory.cpp:115-124 | true iff every page touched is mapped with the rights needed |
| `AddressSpace.Mmap2KeepsInvIff` | core/src/syscalls.cpp:242-293 | mmap2 keeps the address-space invariant exactly unless the request is a fixed non-executable file mapping at 0 over 4 GiB and text relocations are recorded |
| `AddressSpace.EligibilityLost` | core/src/syscalls.cpp:242-293 | two calls from the initial space after which the invariant fails |
| `AddressSpace.MunmapKeepsInv` | core/src/syscalls.cpp:295-305 | munmap keeps the invariant |
| `AddressSpace.MprotectKeepsInv` | core/src/syscalls.cpp:307-318 | mprotect keeps the invariant: no page becomes executable that is not eligible |
| `AddressSpace.BrkKeepsInv` | core/src/syscalls.cpp:222-240 | brk keeps the invariant |
| `AddressSpace.SealRestores` | core/src/process.cpp:226-235 | a successful seal gives every recorded page its original protection, changes no other page and leaves no ranges |
| `AddressSpace.AnyCallsKeepInv` | core/src/syscalls.cpp:222-318 | any sequence of these calls without that request keeps: executable and text-relocation pages eligible, file mappings and ranges pairwise disjoint |
| `AddressSpace.NonFixedMmapKeepsUsedPages` | core/src/syscalls.cpp:255-278 | a mapping that is not MAP_FIXED never changes the flags of a page in use |
| `AddressSpace.EraseOverlapping` | core/src/process.cpp:201-209 | removes exactly the records that overlap, in order |
| `AddressSpace.Process.ForgetMappings` | core/src/process.cpp:201-209 | forgets exactly the overlapping file mappings and text-relocation ranges |
| `AddressSpace.Process.SetExecEligibility` | core/src/process.cpp:326-331 | sets the eligibility of exactly the pages of the range |
| `AddressSpace.Process.MayExecuteRange` | core/src/process.cpp:333-338 | true iff every page of the range is eligible |
| `AddressSpace.Process.SysMmap2` | core/src/syscalls.cpp:242-293 | result and new state are those of the specification, error paths and the host's errno included |
| `AddressSpace.Process.SysMunmap` | core/src/syscalls.cpp:295-305 | result and new state are those of the specification |
| `AddressSpace.Process.SysMprotect` | core/src/syscalls.cpp:307-318 | result and new state are those of the specification |
| `AddressSpace.Process.SysBrk` | core/src/syscalls.cpp:222-240 | result and new state are those of the specification |
| `AddressSpace.Process.SealTextrelRanges` | core/src/process.cpp:226-235 | the ranges are protected in turn until one fails, and are forgotten only if none does |
| `ElfLoader.FindSpan` | core/src/elf_loader.cpp:57-87 | the span of the image, or a refusal exactly if some header is not acceptable |
| `ElfLoader.SpanHolds` | core/src/elf_loader.cpp:80-84 | the span holds every segment and starts at one |
| `ElfLoader.UnionIsExact` | core/src/elf_loader.cpp:133-146 | a right is in a page's union iff some PT_LOAD touching the page grants it |
| `ElfLoader.TouchedExactly` | core/src/elf_loader.cpp:133-146 | a page has permissions iff some PT_LOAD touches it |
| `ElfLoader.PagePermissions` | core/src/elf_loader.cpp:135-146 | page_prot holds that union for every page of the span |
| `ElfLoader.ApplyRuns` | core/src/elf_loader.cpp:147-159 | the coalesced-run loop equals per-page application, succeeds exactly if the host accepts the start of every run, and changes nothing outside the span |
| `ElfLoader.ChooseBias` | core/src/elf_loader.cpp:90-105 | the image goes to free pages: its own, or the highest free run below the limit; refused exactly if that does not exist |
| `ElfLoader.LocateHeaders` | core/src/elf_loader.cpp:161-174 | PT_PHDR, else the first PT_LOAD that holds e_phoff, else 0 |
| `ElfLoader.RollBack` | core/src/elf_loader.cpp:153-157 | the table is as before the call exactly if the undoing unmap succeeds |
| `ElfLoader.FillImage` | core/src/elf_loader.cpp:124-132 | the copying loop puts into every byte of the image the content its segments give it, and writes nothing else |
| `ElfLoader.ContentIsLast` | core/src/elf_loader.cpp:124-132 | that content is the file byte of the last segment that supplies the address |
| `ElfLoader.LoadElf` | core/src/elf_loader.cpp:57-190 | success exactly if the headers and the entry are acceptable, a bias exists and the host calls succeed; then each page of the span has exactly the union of its segments' permissions, gaps are unmapped and the bytes are the segments' contents; on failure every page flag is as before exactly if the unmap succeeds |
| `ProcMaps.EndOfRun` | core/src/proc_files.cpp:125-130 | the first page with other flags or another name |
| `ProcMaps.BuildMaps` | core/src/proc_files.cpp:98-145 | lines are ascending, disjoint, cover exactly the mapped pages with their own flags and names, and touching lines differ |
| `ProcMaps.EncodingIsUnique` | core/src/proc_files.cpp:98-145 | there is only one such list of lines |
| `SignalFrames.BitsRoundTrip` | core/src/signals.cpp:199-207 | bits packed into a word are read back |
| `SignalFrames.HandlerBlocks` | core/src/signals.cpp:225-227 | the handler runs with the old mask, the action's mask and, without SA_NODEFER, its own signal blocked, never SIGKILL or SIGSTOP |
| `SignalFrames.HandlerSees` | core/src/signals.cpp:193-239 | the handler finds the signal in r0, an 8-aligned frame at sp, with SA_SIGINFO the siginfo behind r1 and the interrupted context behind r2, its first instruction in pc and the right instruction set |
| `SignalFrames.ContextLayout` | core/include/zb/guest_abi.h:206-214 | registers, cpsr, mask, alternate stack and VFP words are at the offsets the ABI gives them |
| `SignalFrames.RestoreContext` | core/src/signals.cpp:199-210 | the ucontext of a thread restores that thread's registers, VFP words, fpscr, mask, user cpsr bits and alternate stack |
| `SignalFrames.SigreturnGivesBack` | core/src/signals.cpp:241-260 | sigreturn on an untouched frame gives back the interrupted thread |
| `SignalFrames.Process.DeliverSignal` | core/src/signals.cpp:166-239 | answer and new state are those of the specification: decision, reset, frame in memory, handler entry |
| `SignalFrames.Process.SigReturn` | core/src/signals.cpp:241-260 | answer and new state are those of the specification |
| `SignalFrames.Process.SysRtSigprocmask` | core/src/syscalls.cpp:351-369 | result and new state are those of the specification, including EFAULT after the mask was set |
| `SignalNest.SigprocmaskSane` | core/src/syscalls.cpp:351-369 | no call makes a mask block SIGKILL or SIGSTOP |
| `SignalNest.NewFrameMissesLive` | core/src/signals.cpp:187-195 | a frame that fits its stack overlaps no live frame |
| `SignalNest.NestedOnAltIff` | core/src/signals.cpp:187-195 | two deliveries in a row on the alternate stack get disjoint frames exactly if the first one fits it |
| `SignalNest.SmallAltStackOverlaps` | core/src/signals.cpp:187-195 | on 512 bytes the second frame replaces the first |
| `SignalNest.SmallAltStackLosesThread` | core/src/signals.cpp:166-260 | two deliveries and two returns on it end with other registers than the thread had |
| `SignalNest.ReturnRestores` | core/src/signals.cpp:241-260 | a matching sigreturn gives back the thread its signal interrupted |
| `SignalNest.AltRestoredIff` | core/src/signals.cpp:256-258 | the alternate stack comes back exactly if the signal did not interrupt code on it, or the handler left it alone |
| `SignalNest.AltStackNotRestored` | core/src/signals.cpp:256-258 | a delivery and a return after which the alternate stack is the handler's |
| `SignalNest.StepKeepsInv` | core/src/signals.cpp:166-260 | deliveries, returns and orderly guest steps keep all live frames intact |
| `SignalNest.RunKeepsInv` | core/src/signals.cpp:166-260 | the same over every run |
| `SignalNest.LiveFramesDisjoint` | core/src/signals.cpp:187-195 | live frames are 8-aligned and pairwise disjoint, and the mask blocks neither SIGKILL nor SIGSTOP |
| `SignalNest.NestRestores` | core/src/signals.cpp:166-260 | however handlers nest, the return that matches a delivery restores the thread that delivery interrupted |
| `InitialStack.StackBuilder.PushBytes` | core/src/initial_stack.cpp:22-31 | places the data below the cursor, or makes overflow stick; overflow means exactly that the total does not fit |
| `InitialStack.StackBuilder.PushStrings` | core/src/initial_stack.cpp:36-39 | every string is in place with its NUL |
| `InitialStack.WholeStringIff` | core/src/initial_stack.cpp:32 | a string is read back whole iff it has no NUL in it |
| `InitialStack.WholeAuxvIff` | core/src/initial_stack.cpp:48-51 | the auxiliary vector is read back whole iff no given entry is AT_NULL |
| `InitialStack.BuildInitialStack` | core/src/initial_stack.cpp:16-69 | 0 iff something does not fit; otherwise a 16-byte aligned pointer from which argc, argv, envp, auxv and all strings decode, the table below all strings |
| `InitialStack.DecodesExactly` | core/src/initial_stack.cpp:48-69 | without NULs and AT_NULL the reader gets exactly argv, envp, and the given vector with the three entries behind it |
| `GnuHash.MapAddress` | core/src/elf_symbols.cpp:77-92 | the mapped range lies inside the file |
| `GnuHash.ChainsMerge` | core/src/elf_symbols.cpp:145-148 | a chain that starts lower ends before a higher one starts, or coincides with it |
| `GnuHash.AddBucket` | core/src/elf_symbols.cpp:149-166 | walking every chain agrees with knowing the highest start |
| `GnuHash.InvalidBucketFails` | core/src/elf_symbols.cpp:156-159 | one invalid bucket fails the naive count too |
| `GnuHash.GnuSymbolCount` | core/src/elf_symbols.cpp:123-183 | same result and same failures as walking every bucket's chain, in at most buckets plus one chain of steps |
| `ElfFixups.NeededBecomesBasename` | core/src/elf_fixups.cpp:220-244 | a fixed DT_NEEDED resolves to the old name's basename |
| `ElfFixups.FixEntryTwice` | core/src/elf_fixups.cpp:217-260 | fixing an entry twice is fixing it once, and leaves no text relocation |
| `ElfFixups.FixResult` | core/src/elf_fixups.cpp:216-290 | a refused library is left as it was; in an accepted one whose strings hold no written entry, only the written entries change, every entry is fixed on its own and the table stays terminated |
| `ElfFixups.FixIsIdempotent` | core/src/elf_fixups.cpp:109-290 | a second run reports Unchanged, if no written entry holds a byte of the headers or the strings |
| `ElfFixups.SecondRunFails` | core/src/elf_fixups.cpp:216-290 | a library of 148 bytes that the first run changes and the second refuses |
| `ElfFixups.MarkerMeansTextrel` | core/src/elf_fixups.cpp:245-317 | after the fixup the detector finds the marker exactly if there are at most 64 program headers and DT_TEXTREL, a marker of value 1, or DF_TEXTREL without a marker was there |
| `ElfFixups.DetectedIffTextrel` | core/src/elf_fixups.cpp:292-317 | without a prior marker: exactly if there are at most 64 program headers and DT_TEXTREL or DF_TEXTREL was present |
| `ElfFixups.DetectMarker` | core/src/elf_fixups.cpp:292-317 | true iff some acceptable dynamic table has the marker before its end |
| `ElfFixups.MakePlan` | core/src/elf_fixups.cpp:127-211 | the checks and scans before any entry is touched |
| `ElfFixups.FixEntries` | core/src/elf_fixups.cpp:216-260 | the loop over the entries, with every changed byte inside a recorded entry |
| `ElfFixups.WriteBack` | core/src/elf_fixups.cpp:283-287 | writing only the recorded entries makes the file equal to the fixed bytes |
| `ElfFixups.FixGuestLibrary` | core/src/elf_fixups.cpp:109-290 | status and file contents are those of the specification |
| `ControlMessages.HostRoundTrip` | core/src/syscalls.cpp:829-835 | the host reads back the messages of a host encoding |
| `ControlMessages.WalkStaysInsideIff` | core/src/syscalls.cpp:824-836 | every message the loop accepts lies inside the buffer exactly if no length wraps when added to its offset |
| `ControlMessages.WrappingExample` | core/src/syscalls.cpp:828 | 24 bytes on which the loop accepts a message outside the buffer and goes back to offset 4 |
| `ControlMessages.ControlToHost` | core/src/syscalls.cpp:819-839 | for any bytes: reads outside exactly if a length wraps, starts again exactly if the offset does, and otherwise the output is the host encoding of exactly the messages in the guest list |
| `ControlMessages.HostReadsGuestMessages` | core/src/syscalls.cpp:819-839 | so the host reads the messages the guest meant |
| `ControlMessages.FitIsLongest` | core/src/syscalls.cpp:841-856 | the number of messages moved is the longest prefix that fits |
| `ControlMessages.ControlToGuest` | core/src/syscalls.cpp:841-856 | unless a 32-bit sum wraps, and exactly then: the guest reads the longest fitting prefix, whole messages only, MSG_CTRUNC says whether any are missing, and nothing behind is written |
| `ControlMessages.KernelListsAreSane` | core/src/syscalls.cpp:841-856 | no such sum wraps for a host list below 2^31 bytes |
| `ControlMessages.BigMessageOverruns` | core/src/syscalls.cpp:845-846 | a message of 2^32 guest bytes wraps it |
| `ControlMessages.RoundTrip` | core/src/syscalls.cpp:819-856 | guest to host to guest gives the same messages iff they fit, else the longest fitting prefix, for exactly the lists in which nothing wraps |
| `ControlMessages.HostBufferSuffices` | core/src/syscalls.cpp:876-882 | a list that fits msg_controllen in the guest layout fits the host buffer of recvmsg |
| `AxmlStrings.Utf8RoundTrip` | tools/axml_inject.py:60 | strict UTF-8 decoding inverts encoding |
| `AxmlStrings.LengthRoundTrip` | tools/apk_preflight.py:119-121 | varlen8 reads what length8 wrote |
| `AxmlStrings.BuildPool` | tools/axml_inject.py:56-71 | the loop of make_pool gives the pool, or fails where a length cannot be packed |
| `AxmlStrings.PoolRoundTrip` | tools/apk_preflight.py:124-153 | string_pool reads back exactly the strings make_pool wrote |
| `AxmlParser.ReadAttributes` | tools/apk_preflight.py:186-202 | the dictionary of the attributes, or a failure at a repeated key or a bad index |
| `AxmlParser.BinaryManifest` | tools/apk_preflight.py:156-217 | the parser's loop equals the recursive specification |
| `AxmlParser.WalkIsFold` | tools/apk_preflight.py:162-216 | parsing a file of whole chunks is folding over the list of them |
| `AxmlEdit.StartTagExtends` | tools/axml_inject.py:167-172 | old string indices mean the same with more strings in the pool |
| `AxmlEdit.SetExtractReads` | tools/axml_inject.py:213-232 | the edited start chunk opens the same element with extractNativeLibs true and nothing else changed |
| `AxmlEdit.SetExtractIff` | tools/axml_inject.py:213-232 | with distinct strings that holds exactly if the edit runs over no attribute |
| `AxmlEdit.OverlapExample` | tools/axml_inject.py:228-232 | a start chunk on which the edit turns one attribute into another |
| `AxmlEdit.StartBytesRead` | tools/axml_inject.py:123-135 | a written start chunk opens the element with the attributes it was written with |
| `AxmlProcesses.FindProcesses` | tools/axml_inject.py:83-120 | the loop over the components equals its specification |
| `AxmlProcesses.ProcessesExact` | tools/axml_inject.py:83-120 | at most eight processes, the default first, no two the same, and exactly those the application or a component names |
| `AxmlProviders.MissingAdded` | tools/axml_inject.py:167-171 | the old strings are a stable prefix and every wanted string is there |
| `AxmlProviders.ProviderReads` | tools/axml_inject.py:123-135 | the parser reads a provider's chunks as that provider |
| `AxmlInject.IdsEntered` | tools/axml_inject.py:176-182 | every resource id stays, or was blank and is that of an attribute; the attributes have theirs |
| `AxmlInject.FindApplication` | tools/axml_inject.py:183-204 | the loop that finds the application's chunks equals its specification |
| `AxmlInject.EditStart` | tools/axml_inject.py:213-232 | the attribute loop overwrites the first match or appends |
| `AxmlInject.InjectManifest` | tools/axml_inject.py:138-260 | the whole of inject, the final checks included, equals its specification |
| `AxmlPreserves.CloseKeeps` | tools/apk_preflight.py:210-213 | closing an element keeps the two parses related |
| `AxmlPreserves.StayTogether` | tools/axml_inject.py:205-249 | after every chunk the parse of the output is the parse of the input with the application patched |
| `AxmlPreserves.InjectTree` | tools/axml_inject.py:138-260 | whenever inject succeeds, its output parses to the input tree with the application's attributes and first children replaced and nothing else changed |
| `AxmlPreserves.InjectPreserves` | tools/axml_inject.py:205-260 | and the attributes differ only in extractNativeLibs being true, if the edit runs over no attribute |
| `AxmlPreserves.InjectPreservesIff` | tools/axml_inject.py:213-232 | with distinct strings in the pool, exactly then |
| `AxmlPreserves.RecheckPasses` | tools/axml_inject.py:247-260 | the final checks pass whenever the output parses |
| `AxmlExamples.OverlappingManifest` | tools/axml_inject.py:228-232 | a whole manifest that inject accepts and does not preserve |
| `AxmlExamples.PlainManifest` | tools/axml_inject.py:138-260 | a whole manifest that inject accepts and preserves |

## Left out

- Dynarmic, cp15 and instruction semantics: guest execution is an arbitrary step.
- Real host syscalls, sockets, files, clocks and the futex: success or failure is an argument.
- translate_path and guest_executable_allowed: whether a file may be executed is part of the mmap2 request.
- Android driver backends, the JNI environment, GL and EGL tables, code generators: forwarding or generated data.
- JNI handle tables, mangling, descriptors, thunks, HostJni and HostLooper.
- runtime_report, hang_watchdog, logging, crash reports and command lines: diagnostics.
- apk_convert signing, zip handling and readelf parsing: tool plumbing.
- The siginfo payload of pending signals: pending signals are a set of numbers.
- sysv_symbol_count, dispatch_pending_signals and deliver_fault are not modelled.
- sys_sigaltstack and sys_rt_sigaction: in the nest a guest step changes the alternate stack and the actions freely.
- ElfLoader.LoadElf: reading the file, the checks of the ELF header itself (e_ident, e_type, e_phnum and sizes) and handing out PT_INTERP's string are not modelled; the program headers and the file's bytes are given.
- ElfFixups.FixGuestLibrary: open, read, write and fsync failures and the file-size limit are not modelled.
- ElfFixups.FixIsIdempotent: the condition is sufficient; a written entry may overlap the headers or the strings without harm.
- ElfFixups.MarkerMeansTextrel: states nothing for a library in which a written entry overlaps the headers or the strings.
- ElfFixups.DetectedIffTextrel: states nothing for a library in which a written entry overlaps the headers or the strings.
- ProcMaps.BuildMaps: the printing of a line as text is not modelled.
- InitialStack.BuildInitialStack: excluded are a stack top within 256 KiB of address 0 while page 0 is writable, where a string could get the address 0, and a table of nearly 4 GiB (0x3FF00000 words) or more, whose size wraps.
