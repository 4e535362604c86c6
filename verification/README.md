# Verification of the emulator's concurrent and binary-level cores

This project models eight parts of a PS5 user-mode emulator in Dafny and proves what they are for. The emulator's own
code is not part of it; the paths below are relative to its repository's root.

- **Event flags** (`event_patterns.dfy`, `event_flag_object.dfy`, `event_flag_system.dfy`, `event_waits.dfy`).
  `FlagObject` has one method for each critical section under a flag's mutex, stated on sets of events and proved on
  64-bit words. `EventFlagSystem` lets any number of threads run those sections, with `notify_all`, timeouts and
  spurious wake-ups as separate steps. Main results: no wake-up is lost, the flag refines a flag used by one caller at
  a time, bits are conserved over whole runs, and a wait times out exactly when it should.
- **Fibers** (`fibers.dfy`, `fiber_stacks.dfy`, `fiber_calls.dfy`, `fiber_entries.dfy`, `fiber_chains.dfy`,
  `fiber_results.dfy`, `fiber_runs.dfy`). Contexts keep an explicit continuation for the code after SwitchToFiber. Main
  results: `t_current` is always right; under a nesting discipline the contexts form stacks, returns pop them and
  arguments arrive; every resumed call receives what the list of steps says; and without the discipline, exactly when a
  thread is lost and exactly which value a Run hands out.
- **Loader and import linker** (`byte_image.dfy`, `elf_segments.dfy`, `elf_relocation.dfy`, `rebasing.dfy`,
  `brute_force.dfy`, `import_scan.dfy`, `loader_pipeline.dfy`, `rebased_load.dfy`; from the files' bytes:
  `segment_bytes.dfy`, `relocation_bytes.dfy`, `stub_bytes.dfy`). In-place methods over a byte array, each proved equal
  to a function on byte sequences. The relocation formulas are those of section 4.4.1 of the System V ABI AMD64
  supplement. Main results: the segment image, rebasing, agreement of the two ways of hooking imports, idempotence, and
  code integrity across all phases.
- **Emitted x86 code** (`x86_code.dfy`, `x86_machine.dfy`, `x86_runs.dfy`, `null_safe.dfy`, `spinlock.dfy`,
  `emission.dfy`, `detours.dfy`, `detour_outcomes.dfy`). Bytes, a decoder, a small-step machine. Main results: what
  each null-safe trampoline does from every state, from the patch site on, and that the type-registration trampoline is
  a correct spinlock for any number of threads.
- **Calendar** (`c_division.dfy`, `civil_calendar.dfy`, `julian_days.dfy`, `julian_day_range.dfy`, `dates.dfy`,
  `times.dfy`). Julian days and the proleptic Gregorian calendar of section 3.2.1 of ISO 8601:2004, except that there
  is no year 0. Main results: round trips both ways, successor, order, and the exact range without overflow.
- **Audio ring** (`audio_formats.dfy`, `audio_ring.dfy`), **byte hash** (`bitwise_xor.dfy`, `byte_hash.dfy`, and on
  machine words `hash_words.dfy`), **handler installation** (`host_exception.dfy`).

There is one module to a file; `options.dfy` holds a datatype that the modules share. A class or an array method is
proved against a specification function or step function; the lemmas about whole runs are about those functions.

## Where the code does less than its comments say

- Cancel is meant to wake every waiter with ECANCELED, but it lowers `canceled` in a second critical section
  (`src/evflag.cpp:194-198`). A waiter notices exactly when the last Cancel or reset that took effect is a Cancel
  (`CanceledIffCancelLast`); while Cancels do not overlap, that is before the reset (`CanceledIffInTime`).
  `CancelCanBeMissed` is a run in which nobody notices, and in `OverlappingCancelMissed` even a waiter that came before
  the reset of the Cancel that woke it does not.
- Entering a fiber that already waits on the own chain overwrites its `resume_to`, and then no ReturnToThread reaches
  the thread again: `ThreadRegainedIff`, with the run `MutualSwitchLosesThread`. If it waits on another thread's chain,
  that thread gets no further down than the fiber above: `CutChainSticks`.
- A Run hands out the argument of the last ReturnToThread from its fiber before it reads it, which another thread's can
  be: `ReturnValueDelivered` says when the value is lost, and `ResultLost` is a run. It is safe as long as no other
  thread enters the fiber: `DeliveredUnlessEntered`. Switch hands back its own argument (`src/fiber.cpp:204`):
  `SwitchHandsBackOwnArgument`.
- Output is meant never to get stuck, but a failed write of a reused header leaves it waiting for a completion that
  cannot come (`src/audio.cpp:298-301`): `Port.OutputAll` says how many packets still get through, and `RefusedRewrite`
  is such a port.
- The guard against segments that pass the end of the file adds in 64 bits and is blind to a wrapped sum
  (`src/loader.cpp:247`): `CopyStaysInFile`, with the files of `WrappedEnd`.
- The fallback relocation is not idempotent in general: `IdempotentIff`, with the image of `SecondScanMoves`.

## Model

| member | source | states |
|---|---|---|
| `EventPatterns.EventsInjective` | src/evflag.cpp:64-74 | a 64-bit pattern and the set of events (one-bit words) that it signals determine each other |
| `EventPatterns.UnionMeaning` | src/evflag.cpp:133 | or-ing bits into the pattern signals exactly those events and forgets none |
| `EventPatterns.MeetMeaning` | src/evflag.cpp:73-143 | and-ing keeps exactly the events of the argument, and-ing with the complement drops exactly them |
| `EventPatterns.SatisfiedMeaning` | src/evflag.cpp:64-68 | the masked comparison holds exactly when the wanted events are all signalled, or one of them in OR mode, or none is wanted |
| `EventPatterns.ClearedMeaning` | src/evflag.cpp:71-74 | what a success leaves: nothing, the events not waited for, or everything, by mode |
| `EventFlagObject.FlagObject.constructor` | src/evflag.cpp:90-93 | a new flag signals the initial events, has no waiters, and is neither cancelled nor deleted |
| `EventFlagObject.FlagObject.Set` | src/evflag.cpp:131-134 | the signalled events grow by the argument; nothing else changes |
| `EventFlagObject.FlagObject.Clear` | src/evflag.cpp:142-143 | only the events of the argument stay |
| `EventFlagObject.FlagObject.ApplyClear` | src/evflag.cpp:71-74 | the remaining events of the mode, in the pattern alone |
| `EventFlagObject.FlagObject.Poll` | src/evflag.cpp:150-157 | success exactly when the condition holds; the reported pattern is the one before clearing; a timeout changes nothing |
| `EventFlagObject.FlagObject.EnterWait` | src/evflag.cpp:171-175 | the waiter is counted, and the answer is whether it may go on at once |
| `EventFlagObject.FlagObject.TestWait` | src/evflag.cpp:175 | a waiter is ready exactly when the flag is deleted, cancelled or has its events |
| `EventFlagObject.FlagObject.LeaveWait` | src/evflag.cpp:176-182 | cancellation goes before timeout goes before success; only success clears, and the reported pattern is the one before |
| `EventFlagObject.FlagObject.Cancel` | src/evflag.cpp:188-193 | reports the waiters, replaces the pattern, raises `canceled` |
| `EventFlagObject.FlagObject.ResetCanceled` | src/evflag.cpp:195-198 | lowers `canceled` and nothing else |
| `EventFlagObject.FlagObject.MarkDeleted` | src/evflag.cpp:119-122 | raises `deleted` and nothing else |
| `EventFlagSystem.ClearingNeverReadies` | src/evflag.cpp:64-74 | no clearing path makes any waiter ready that was not |
| `EventFlagSystem.NoLostWakeupKept` | src/evflag.cpp:112-200 | every step of every thread keeps: a parked waiter that is ready has a notifier under way for its flag |
| `EventFlagSystem.CountKept` | src/evflag.cpp:172-176 | every step keeps `waiters` equal to the number of threads inside Wait |
| `EventFlagSystem.CanceledKept` | src/evflag.cpp:188-198 | every step keeps: `canceled` is up only while a Cancel is between its two critical sections |
| `EventFlagSystem.DeletedKept` | src/evflag.cpp:112-122 | every step keeps: a deleted flag is out of the registry, for good |
| `EventFlagSystem.LogKept` | src/evflag.cpp:128-183 | every step keeps the log of critical sections explained by the sequential flag, and the flag equal to its replay |
| `EventFlagSystem.Reachable` | src/evflag.cpp:90-200 | all these invariants hold after every run of any number of threads on any number of flags |
| `EventFlagSystem.WakeupPending` | src/evflag.cpp:112-200 | no lost wake-up: in every run, a parked waiter whose condition holds has a pending notify_all that wakes it |
| `EventFlagSystem.RefinesAtomicFlag` | src/evflag.cpp:128-183 | every logged outcome and pattern is that of a one-call-at-a-time flag at the moment the mutex was held; a timeout leaves that flag unchanged |
| `EventFlagSystem.ReturnsLoggedOutcome` | src/evflag.cpp:112-200 | every call logs its operation once, with the outcome it returns, at once or after its pending notify_all; it logs nothing before, asleep or between the two parts of a Delete |
| `EventFlagSystem.NotifierReturnsOk` | src/evflag.cpp:119-199 | a thread with a pending notify_all or reset can only return Ok, and logs no further call |
| `EventFlagSystem.CallsLogOnce` | src/evflag.cpp:90-200 | in every run, a call that has returned has logged itself exactly once since it was made, with its own operation and the outcome that it returned; only a call for an unknown flag has logged nothing |
| `EventFlagSystem.BitsConserved` | src/evflag.cpp:64-158 | in every run, AND-mode clearing successes that include a bit never outnumber the occasions on which the bit was put in |
| `EventFlagSystem.CancelReportsWaiters` | src/evflag.cpp:185-193 | in every run Cancel reports exactly the number of threads inside Wait |
| `EventFlagSystem.CanceledIffCancelLast` | src/evflag.cpp:176-198 | in every run, a waiter holding the mutex returns ECANCELED if and only if the flag was deleted or, of the Cancels and resets that took effect on it, the last is a Cancel |
| `EventFlagSystem.SoloCancelShows` | src/evflag.cpp:185-199 | in every run whose Cancels of a flag do not overlap, `canceled` is up all the while between a Cancel's two critical sections |
| `EventFlagSystem.CanceledIffInTime` | src/evflag.cpp:176-198 | in every such run, a waiter holding the mutex returns ECANCELED if and only if the flag is deleted or a Cancel of it has begun and not yet reset it |
| `EventFlagSystem.CancelCanBeMissed` | src/evflag.cpp:194-198 | a run in which the only parked waiter misses the Cancel that counted it |
| `EventFlagSystem.OverlappingCancelMissed` | src/evflag.cpp:185-199 | a run in which a waiter is woken by one Cancel, holds the mutex before that Cancel has reset the flag, and still parks again: an overlapping Cancel's reset came first |
| `EventFlagSystem.CancelIsOneShot` | src/evflag.cpp:195-198 | with no Cancel under way the flag is not cancelled, in every run |
| `EventFlagSystem.DeletedStaysInvalid` | src/evflag.cpp:47-52 | in every run, any later call with the handle of a deleted flag fails as invalid |
| `EventWaits.TimeoutReturns` | src/evflag.cpp:171-183 | once a parked waiter has timed out, whatever enabled steps the other threads take, its next step ends the call and counts it out: cancelled if the flag then is cancelled or deleted, Ok if its condition then holds, timed out otherwise |
| `EventWaits.WakeupReturns` | src/evflag.cpp:173-182 | a waiter woken without a timeout ends only cancelled or with its condition, and otherwise goes back to sleep |
| `EventWaits.OnlyTimeoutsTimeOut` | src/evflag.cpp:173-180 | in every run, a Wait returns a timeout only if its thread has timed out since it last went to sleep |
| `EventWaits.RegistryAlways` | src/evflag.cpp:47-122 | in every run, a flag is in the registry if and only if it is neither deleted nor taken out by a Delete that is still under way |
| `EventWaits.CallFindsFlag` | src/evflag.cpp:47-52 | in every run, a call finds its flag, and goes on with its own operation, exactly then; otherwise it is invalid |
| `EventWaits.CreatedStays` | src/evflag.cpp:84-97 | a new flag is registered with its initial events and no waiters, and no step unmakes it |
| `EventWaits.NobodyStuck` | src/evflag.cpp:112-200 | in every run, every thread has an enabled step of its own: a call, a timeout, or the next part of its call |
| `Fibers.IdentityKept` | src/fiber.cpp:84-222 | every call, switch and resumption keeps the saved `t_current` values right for their contexts |
| `Fibers.CurrentIsRunning` | src/fiber.cpp:84-222 | in every run, when guest code executes, `t_current` is the fiber whose context executes, or null in the thread's own context |
| `FiberStacks.StacksKept` | src/fiber.cpp:152-222 | every disciplined step of any thread keeps the chains of `resume_to` acyclic, disjoint and ending at their threads; entering pushes one context, returning pops one |
| `FiberStacks.NestingHolds` | src/fiber.cpp:152-222 | hence after every disciplined run from the start |
| `FiberStacks.ReturnPops` | src/fiber.cpp:208-222 | one ReturnToThread and the resumption it causes remove exactly the top context |
| `FiberStacks.RegainsThread` | src/fiber.cpp:208-222 | after any number of returns: the context that many places down, and the thread itself from exactly the depth on |
| `FiberStacks.EntryArgumentDelivered` | src/fiber.cpp:84-220 | a fiber that starts or continues receives the argument of the Run or Switch that waits below it |
| `FiberEntries.RecordsReplay` | src/fiber.cpp:117-222 | in every run, a fiber's record holds the argument of the Initialize that made it, that of the last Run or Switch to it, and that of the last ReturnToThread from it, all read off the list of steps |
| `FiberEntries.ResumeReceives` | src/fiber.cpp:84-220 | in every run, with or without discipline, a thread that goes on receives exactly that: an entry function the first two, Run the third, Switch and a continued ReturnToThread the second; a finished entry function never goes on |
| `FiberEntries.EveryFiberWasMade` | src/fiber.cpp:117-139 | every fiber that exists was made by some enabled Initialize of the run and has existed ever since |
| `FiberEntries.EntryArgumentsDelivered` | src/fiber.cpp:84-91 | if step i of a disciplined run is the Initialize that made fiber g with argument a, then whichever thread starts g, its entry function is called with a and the argument of the Run or Switch that waits below it |
| `FiberEntries.FinalizeForgets` | src/fiber.cpp:224-241 | Finalize forgets the handle, its fiber and the fiber's context and nothing else; Run and Switch of the handle then find no fiber |
| `FiberEntries.FinishedStays` | src/fiber.cpp:91-101 | a fiber whose entry function has returned is never entered again and stays finished until it is finalized |
| `Fibers.HandlesStayApart` | src/fiber.cpp:117-139 | in every run, different handles have different fibers |
| `FiberResults.LastReturnDelivered` | src/fiber.cpp:152-222 | a Run hands out the argument of the last ReturnToThread from its fiber by whatever thread, after any enabled steps of the others |
| `FiberResults.ReturnValueDelivered` | src/fiber.cpp:152-222 | the value given to ReturnToThread is what the Run below hands out if and only if the last later return from the same fiber, if there is one, has the same value; for any steps of the others |
| `FiberResults.DeliveredUnlessEntered` | src/fiber.cpp:152-222 | it arrives whatever the others do, as long as none of them enters the fiber before it has been read |
| `FiberResults.ResultFrozen` | src/fiber.cpp:183-210 | an enabled step of another thread leaves a pending result alone unless it is a return from the fiber, and then replaces it by its own |
| `FiberStacks.SwitchHandsBackOwnArgument` | src/fiber.cpp:200-204 | Switch hands back the argument it was itself given |
| `FiberStacks.RingForms` | src/fiber.cpp:187-202 | entering a fiber that waits on the own chain closes the contexts above it into a ring of `resume_to` |
| `FiberStacks.RingNeverEnds` | src/fiber.cpp:208-222 | inside such a ring no number of returns ever reaches the thread |
| `FiberChains.LinkReturns` | src/fiber.cpp:208-222 | returns walk down the chain of one thread link by link, whatever the other threads' chains look like |
| `FiberChains.ThreadRegainedIff` | src/fiber.cpp:152-222 | after entering any fiber, waiting or idle, on this or another thread's chain or with a result unread, returns can regain the thread if and only if the fiber was not already on its own chain |
| `FiberChains.CutChainSticks` | src/fiber.cpp:152-222 | the thread into whose chain another one cuts comes back exactly as far as the fiber above the cut, whose own return then cannot go on |
| `FiberStacks.ResultRace` | src/fiber.cpp:152-183 | outside the discipline: a thread can receive the value of another thread's return |
| `FiberRuns.MutualSwitchLosesThread` | src/fiber.cpp:152-222 | a run from the start of two fibers that switch to each other, after which no number of ReturnToThread calls regains the thread |
| `FiberRuns.ResultLost` | src/fiber.cpp:152-222 | a run from the start in which a fiber returns 5 to a Run and that Run hands out 7 |
| `FiberCalls.Process.Prepare` | src/fiber.cpp:157-164 | sets the argument and the way back, and makes the host fiber the first time only |
| `FiberCalls.Process.Initialize` | src/fiber.cpp:117-139 | the records after Initialize, as the step system says |
| `FiberCalls.Process.Finalize` | src/fiber.cpp:224-241 | the records after Finalize, as the step system says; false exactly for an unknown fiber |
| `FiberCalls.Process.Run` | src/fiber.cpp:152-180 | updates the records up to its SwitchToFiber exactly as the step system says; false exactly for an unknown fiber |
| `FiberCalls.Process.Switch` | src/fiber.cpp:187-202 | the records after Switch, up to its SwitchToFiber, as the step system says; false exactly for an unknown fiber |
| `FiberCalls.Process.ReturnToThread` | src/fiber.cpp:208-217 | stores the value, clears `t_current` and goes back, as the step system says; refused exactly outside a fiber |
| `FiberCalls.Process.EndEntry` | src/fiber.cpp:98-100 | a returning entry function leaves its fiber for good, towards its way back |
| `FiberCalls.Process.GoOn` | src/fiber.cpp:181-183 | the code after a SwitchToFiber repairs `t_current` and reads the result, as the step system says |
| `ByteImage.ReadBack` | src/loader.cpp:399-400 | a little-endian slot reads back what was stored |
| `ByteImage.ReadElsewhere` | src/loader.cpp:399-400 | and slots apart from it are unaffected |
| `ElfSegments.ReadSegmentTable` | src/loader.cpp:205-226 | the container's table maps exactly the segments with a usable record, each to the offset in its last one |
| `SegmentBytes.TableFromBytes` | src/loader.cpp:205-226 | from the bytes of a container (magic 4F 15 3D 1D, count at 0x18, 32-byte records from 0x20): the table has an entry for exactly the segments that a record with the data bit 0x800 and equal sizes names in its bits 20 to 51, and the last such record's offset |
| `SegmentBytes.NoContainerNoTable` | src/loader.cpp:206 | a file without the magic bytes has no such table |
| `SegmentBytes.ReadsHeader` | src/loader.cpp:141-155 | the 56 bytes of a program header read as its kind, flags, offset, address and sizes |
| `SegmentBytes.ScannedBits` | src/loader.cpp:607-628 | the fallback scans exactly the headers of kind 1 with the write bit and without the execute bit |
| `ElfSegments.ImageSize` | src/loader.cpp:145-155 | the image ends at the last PT_LOAD end (64-bit sums) and covers all of them if none wraps |
| `ElfSegments.CopyStaysInFile` | src/loader.cpp:247-260 | the cut keeps the copy inside the file if and only if the end of the segment in the file does not wrap to within it |
| `ElfSegments.WrappedEnd` | src/loader.cpp:110-260 | a bare ELF file with room for its header and one program header, whose segment wraps into the file: every such file passes the guard and the whole copy lies outside it |
| `ElfSegments.CopySegments` | src/loader.cpp:229-267 | the in-place copies and zeroings, in header order |
| `ElfSegments.SegmentImage` | src/loader.cpp:229-267 | for disjoint PT_LOADs in any order over zeroed memory, each byte is the file's byte at the segment's true offset, zero past the end of the file, zero in the BSS |
| `ElfSegments.Uncovered` | src/loader.cpp:229-267 | bytes in no PT_LOAD are left alone |
| `ElfSegments.ImageFromFile` | src/loader.cpp:205-267 | the same image byte straight from the file: from the offset in the segment's last usable record, or elf_offset + p_offset where no record names it |
| `ElfSegments.CountDifferences` | src/loader.cpp:759-768 | counts exactly the differing bytes and finds the first one |
| `ElfRelocation.RelocateRela` | src/loader.cpp:369-541 | the pass over the table in the image itself, entry by entry; it stops where an entry or slot lies outside |
| `ElfRelocation.HookJumpSlots` | src/loader.cpp:546-590 | the pass over the jump slots: native functions first, hook addresses otherwise, other entries untouched |
| `RelocationBytes.ReadsFields` | src/loader.cpp:366-396 | 24 bytes of a table are offset, kind in four bytes, symbol in four bytes, addend, lowest byte first |
| `RelocationBytes.RelaFromBytes` | src/loader.cpp:393-541 | from those bytes: after the pass the eight bytes at the offset are those of (base + addend) mod 2^64 for kind 8, of the symbol's address for kind 6, and of (address + addend) mod 2^64 for kind 1 |
| `RelocationBytes.RelaSpares` | src/loader.cpp:393-541 | and every other byte of the image stays: entries of any other kind store nothing |
| `RelocationBytes.HooksFromBytes` | src/loader.cpp:551-588 | from those bytes: entry k of kind 7 with a symbol leaves the native function's address in its slot, or 0x10000000000 + k |
| `RelocationBytes.HooksSpare` | src/loader.cpp:551-588 | and every other byte stays |
| `ElfRelocation.PassIsStores` | src/loader.cpp:393-590 | over slots off the table, reading the entries while storing is the same as having read them all beforehand |
| `Rebasing.EntriesHold` | src/loader.cpp:393-590 | with distinct slots, each ends up with its own entry's value |
| `Rebasing.PassFrame` | src/loader.cpp:393-590 | no other byte changes |
| `Rebasing.RelativeHolds` | src/loader.cpp:398-400 | a RELATIVE slot holds base plus addend modulo 2^64 |
| `Rebasing.RebasingShifts` | src/loader.cpp:398-401 | loading at another base shifts every RELATIVE slot by the distance of the bases modulo 2^64 |
| `Rebasing.RebasingFrame` | src/loader.cpp:393-541 | and changes no other byte of the image |
| `Rebasing.HookNamesImport` | src/loader.cpp:581-588 | after the jump slots: slot k holds native(k) or 0x10000000000 + k, from which k can be read off |
| `BruteForce.RelocateByScan` | src/loader.cpp:606-674 | the scan of writable, non-executable PT_LOADs, slot after slot in place |
| `BruteForce.ScanMeaning` | src/loader.cpp:641-672 | over disjoint segments every word of the scanned segments is relocated exactly once, from its old value |
| `BruteForce.FixedFrame` | src/loader.cpp:641-672 | no byte outside those words changes |
| `BruteForce.IdempotentIff` | src/loader.cpp:641-672 | a second scan changes nothing if and only if no address plus base looks like an address again |
| `BruteForce.IdempotentAbove` | src/loader.cpp:641-672 | that is so at a base at or above the image's end without 64-bit overflow |
| `BruteForce.SecondScanMoves` | src/loader.cpp:641-672 | one segment loaded at 0x10000, an address the host can hand out, whose first word the second scan moves again |
| `ImportScan.Matches` | src/linker.cpp:63-70 | the comparison loop recognises exactly the stub pattern |
| `ImportScan.ResolveImports` | src/linker.cpp:38-115 | the scan with its two different skips, in place; it stops at a slot outside the image |
| `ImportScan.ScanAgrees` | src/linker.cpp:63-115 | where every stub's slot holds the stub's own target, the scan changes nothing |
| `ImportScan.ScanAgreesFound` | src/linker.cpp:63-115 | the same when only the stubs that the scan comes to agree |
| `ImportScan.ScanIsPatchAll` | src/linker.cpp:63-115 | stubs at least 16 bytes apart are patched one after another and none is skipped, wherever their slots lie, as long as patching makes and breaks no stub |
| `ImportScan.PastCodePlaced` | src/linker.cpp:63-115 | slots past the scanned bytes always meet that condition |
| `ImportScan.CodeKept` | src/linker.cpp:63-115 | nothing but slots is changed and the same stubs are found again; with slots past the scanned bytes, all of these stay |
| `ImportScan.ImportBound` | src/linker.cpp:88-113 | a writable slot whose stubs agree ends up with their target, unless it was hooked before |
| `ImportScan.ResolvedTwice` | src/linker.cpp:63-115 | a second scan changes nothing, even where stubs that share a slot disagree |
| `ImportScan.ScanKeeps` | src/linker.cpp:63-115 | a range stays unchanged if no stub that the scan patches has its slot there, whatever else it patches, its own code included |
| `StubBytes.ReadsStub` | src/linker.cpp:57-97 | the bytes FF 25 rel32 68 imm32 E9 at i are a stub through the slot i + 6 + rel, whose goal is the native function of imm or 0x10000000000 + imm |
| `StubBytes.StubBound` | src/linker.cpp:38-116 | from a stub's bytes: its writable slot ends up with the goal's eight bytes if its other stubs want the same, unless it held one of the first 0x10000 addresses from 0x10000000000 on |
| `LoaderPipeline.Load` | src/loader.cpp:229-724 | copying, both relocation phases or the fallback or, without PT_DYNAMIC, neither, and the stub scan, as one in-place method |
| `LoaderPipeline.ScanSizeIs` | src/loader.cpp:698-708 | the stub search covers the first PT_LOAD at address 0, as far as its memory size, if that is not 0 |
| `LoaderPipeline.ScanSizeIsAll` | src/loader.cpp:698-708 | and the whole image if no PT_LOAD is at address 0 |
| `StubBytes.LoadedBinds` | src/loader.cpp:591-724 | a stub whose bytes are in the copied code is bound in the loaded image, with or without a jump table, unless its slot was hooked before |
| `LoaderPipeline.RelocationKeeps` | src/loader.cpp:393-590 | two passes keep every range that the tables, as copied from the file, do not reach |
| `LoaderPipeline.AddressScanKeeps` | src/loader.cpp:606-674 | without usable tables relocation keeps every executable segment |
| `LoaderPipeline.CodeIntact` | src/loader.cpp:697-780 | the whole pipeline leaves an untruncated executable PT_LOAD byte-identical to the file, so the check counts zero, as soon as no slot of the tables and of the patched stubs reaches into that segment; wherever it lies, and also when the whole image is searched |
| `LoaderPipeline.CodeIntactFromFile` | src/loader.cpp:697-780 | the same with every condition on the file's own tables and stubs, where relocation spares the searched code |
| `LoaderPipeline.JumpSlotHolds` | src/loader.cpp:393-590 | after both phases a jump slot holds the target that its entry in the file asks for |
| `LoaderPipeline.HooksAgree` | src/loader.cpp:546-724 | where every stub found in the relocated image names a jump-table entry that stores to the stub's slot, the stub scan adds nothing to the table's hooks; whatever the search covers |
| `LoaderPipeline.HooksAgreeFromFile` | src/loader.cpp:546-724 | the same with the stubs read from the file, for searched code that relocation spares |
| `RebasedLoad.LoadedAgrees` | src/loader.cpp:393-724 | through copying, both tables and the stub search: loading at another base changes no byte outside the RELATIVE slots, provided the search finds the same stubs at both bases and none goes through a RELATIVE slot |
| `RebasedLoad.LoadedShifts` | src/loader.cpp:393-724 | and shifts each RELATIVE slot by the distance of the bases modulo 2^64 |
| `RebasedLoad.SparedCodeAlike` | src/loader.cpp:697-724 | the search that both rely on is alike at every base when relocation spares the searched code and the stubs' slots lie past it and off the RELATIVE slots |
| `X86Code.DecodeEncode` | src/loader.cpp:956-977 | decoding undoes encoding for every instruction form that is emitted, with any registers and displacements |
| `X86Code.FetchAt` | src/loader.cpp:1092-1253 | decoding an assembled program at an instruction's offset finds that instruction |
| `Emission.EmitResource` | src/loader.cpp:1092-1126 | the bytes written with the moving index are the assembled program |
| `Emission.EmitTrigger` | src/loader.cpp:1154-1174 | the same for the trigger effect: 39 bytes, with both ways out |
| `Emission.EmitNotify` | src/loader.cpp:1203-1237 | the same for the animation notification: 62 bytes, with three tests |
| `NullSafe.ResourceGuarded` | src/loader.cpp:1092-1126 | from every register, stack and memory state the bytes make the load and go on, or return through the epilogue when the pointer is null or the loaded one below 2^32; only r11 and flags differ |
| `NullSafe.TriggerGuarded` | src/loader.cpp:1154-1174 | from every state the bytes make the comparison and go on with its flags, or skip on a null pointer |
| `NullSafe.NotifyGuarded` | src/loader.cpp:1203-1237 | from every state the bytes make the loads one by one and go on, or skip at the first null pointer |
| `DetourOutcomes.ResourceOutcome` | src/loader.cpp:1092-1126 | what that is, from registers, stack and memory bytes: null or a loaded word below 2^32 returns with rbx, r14 and rbp from the stack and rsp moved by 32; otherwise rax is the word at [rax + 0x90] and 0x37f353 is next; unmapped bytes fault |
| `DetourOutcomes.TriggerOutcome` | src/loader.cpp:1145-1174 | null r13 leaves all as it is and 0x349c86 is next; otherwise zero and carry are those of comparing the byte at [r13 + 0x201] with 0xFF and 0x349c2e is next |
| `DetourOutcomes.NotifyOutcome` | src/loader.cpp:1194-1237 | rsi, rax and rcx are the words at [rax + 0x98], [rax + 0xc0] and [that + 0x90]; a null pointer on the way makes 0x4e6c53 next, otherwise 0x4e6c46 is |
| `Emission.PatchSite` | src/loader.cpp:1128-1142 | the jump and no-ops are written exactly when the distance fits 32 bits; otherwise nothing changes |
| `Emission.DetourEnters` | src/loader.cpp:1128-1142 | a thread at the patch site arrives at the trampoline with everything else unchanged |
| `Detours.SiteReaches` | src/loader.cpp:1128-1142 | in the patched image, running from a site does what running the trampoline's bytes does |
| `Detours.ResourceFromSite` | src/loader.cpp:1092-1142 | running the patched image from 0x37f34c makes the displaced load and goes on right after the site, or returns through the epilogue |
| `Detours.TriggerFromSite` | src/loader.cpp:1144-1193 | running it from 0x349c26 makes the displaced comparison and goes on right after the site with its flags, or at 0x349c86 |
| `Detours.NotifyFromSite` | src/loader.cpp:1194-1253 | running it from 0x4e6c31 makes the displaced loads and goes on right after the site, or at 0x4e6c53 at the first null pointer |
| `Emission.EmitSpinlock` | src/loader.cpp:956-979 | the bytes, with displacements computed from the moving index, are the assembled spinlock; lock and counter start at zero |
| `Spinlock.EveryStepGoes` | src/loader.cpp:956-977 | each step of the emitted bytes has its effect on the thread, the lock byte and the counter, and never faults |
| `Spinlock.EventKeeps` | src/loader.cpp:956-977 | every event of any thread keeps the lock's invariant |
| `Spinlock.MutualExclusion` | src/loader.cpp:956-977 | in every interleaving at most one thread is between its winning exchange and the unlocking store |
| `Spinlock.LockByteTells` | src/loader.cpp:956-979 | the lock byte is zero exactly when no thread is there |
| `Spinlock.CounterCounts` | src/loader.cpp:966-969 | the counter is the number of acquisitions that reached it modulo 2^32: all but possibly one under way |
| `Spinlock.TargetFindsArguments` | src/loader.cpp:965-972 | the function behind the lock finds every register but r11 and rsp as at entry, with its return address on the stack |
| `Spinlock.ReturnsToCaller` | src/loader.cpp:973-977 | the last instruction returns to the caller with its stack and stack pointer as before the call |
| `CDivision.FloorDivIsFloor` | gpu/src/common/dateTime.cpp:11-22 | rounds toward minus infinity for every sign of both operands |
| `JulianDays.DateRoundTrip` | gpu/src/common/dateTime.cpp:24-65 | to a Julian day and back is the identity on every valid date |
| `JulianDays.DayRoundTrip` | gpu/src/common/dateTime.cpp:24-65 | to a date and back is the identity on every Julian day, negative ones too, and the date is valid |
| `JulianDays.Successor` | gpu/src/common/dateTime.cpp:40-65 | the next Julian day is the next calendar day: month ends, leap years, year -1 followed by 1 |
| `JulianDays.DaysCounted` | gpu/src/common/dateTime.cpp:40-65 | n days later is n steps of the calendar |
| `JulianDays.Anchors` | gpu/src/common/dateTime.cpp:24-65 | 1970-01-01 is day 2440588 and day 0 is -4714-11-24 |
| `JulianDays.OrderAgrees` | gpu/src/common/dateTime.h:63-68 | Julian-day order is date order |
| `JulianDayRange.DayRangeExact` | gpu/src/common/dateTime.cpp:40-50 | all 32-bit intermediates stay in range if and only if -536866432 <= jd <= 536838867 |
| `JulianDayRange.WayBackFits` | gpu/src/common/dateTime.cpp:24-38 | and for those dates the way back stays in range |
| `Dates.LeapRule` | gpu/src/common/dateTime.cpp:160-166 | the leap test is the Gregorian rule, with year -1 standing for 0 |
| `Dates.ValidIsDate` | gpu/src/common/dateTime.cpp:90-97 | accepts exactly the dates of the calendar |
| `Dates.WeekIsCyclic` | gpu/src/common/dateTime.cpp:209-219 | the weekday advances by one cyclically, through negative days too |
| `Dates.DayOfYearMeaning` | gpu/src/common/dateTime.cpp:221-230 | the sum of the preceding month lengths plus the day |
| `Dates.Date.Set` | gpu/src/common/dateTime.cpp:136-142 | the object then holds the given date, or the invalid one exactly for no date |
| `Dates.Date.Add` | gpu/src/common/dateTime.h:74-77 | the date that many calendar days later, or earlier for a negative count |
| `Dates.Date.Subtract` | gpu/src/common/dateTime.h:78-81 | the date that many calendar days earlier, or later for a negative count |
| `Times.HmsRoundTrip` | gpu/src/common/dateTime.cpp:67-88 | to milliseconds and back is the identity on valid times |
| `Times.MsRoundTrip` | gpu/src/common/dateTime.cpp:67-88 | and the other way round on every millisecond of the day |
| `Times.ShiftInverse` | gpu/src/common/dateTime.cpp:589-625 | shifts around midnight are undone by the opposite shift |
| `Times.Time.Set` | gpu/src/common/dateTime.cpp:370-376 | holds the given time, or the invalid one exactly for an invalid argument |
| `Times.Time.Add` | gpu/src/common/dateTime.cpp:589-606 | a valid time moves on by that many seconds modulo 86400000 ms and stays valid; stops the program exactly beyond a day; leaves an invalid time alone |
| `Times.Time.Subtract` | gpu/src/common/dateTime.cpp:608-625 | a valid time moves back by that many seconds modulo 86400000 ms and stays valid; stops the program exactly beyond a day; leaves an invalid time alone |
| `AudioFormats.Convert` | src/audio.cpp:109-142 | reads exactly one packet and fills exactly one buffer, each sample from its own frame |
| `AudioFormats.FormatTable` | src/audio.cpp:85-97 | which format numbers are mono, have eight channels, or are floating point; all others are 16-bit stereo |
| `AudioFormats.GrainRange` | src/audio.cpp:187 | the frames of a packet: from 1 to 8192 as asked for, else 256 |
| `AudioFormats.OutputUsesOnly` | src/audio.cpp:109-142 | an output sample depends on no samples but its own frame's |
| `AudioFormats.PacketIsWhatIsRead` | src/audio.cpp:109-169 | the bytes of the samples that the output is made from are exactly the bytes that are checked to be readable, for both widths and the downmix |
| `AudioRing.Port.Complete` | src/audio.cpp:283-284 | one completion: the oldest packet is played as it was accepted |
| `AudioRing.Port.WaitForHeader` | src/audio.cpp:281-294 | for every course of the device's completions: it succeeds if and only if the header is found done before ten 50 ms waits have timed out, gives up if and only if ten have timed out first, and goes on waiting until then |
| `AudioRing.InTimeOrTooLate` | src/audio.cpp:281-294 | one of the two always happens, whatever the device does |
| `AudioRing.TenWaitsAreInTime` | src/audio.cpp:281-294 | a header that is found done within the first ten waits is always in time |
| `AudioRing.Port.Claim` | src/audio.cpp:276-294 | it succeeds exactly when the header is unused or found done in time, and then the device does not hold the buffer |
| `AudioRing.Port.Write` | src/audio.cpp:298-302 | moves on to the next buffer whether or not the device accepts |
| `AudioRing.Port.Output` | src/audio.cpp:260-311 | dropped if and only if the header was used and ten waits time out before it is found done; an accepted packet is the next one the device gets, with its own samples; a dropped one changes no ring state; no held buffer is overwritten, and packets play in acceptance order |
| `AudioRing.Port.OutputAll` | src/audio.cpp:260-311 | over any sequence of packets, device answers and completions: with header i stuck, each packet that gets through brings its turn one closer, and from then on every packet is dropped; only a failed rewrite makes a header stuck |
| `AudioRing.RefusedRewrite` | src/audio.cpp:260-311 | a new port with eight packets played and the ninth refused: of all later packets at most seven get through, even if the device accepts everything |
| `ByteHash.Hash` | gpu/src/common/hash.h:8-55 | the unrolled loop and the fall-through tail absorb the bytes in the order of the reference |
| `HashWords.MixIsMachine` | gpu/src/common/hash.h:14-16 | on 32-bit words the mixing round is h += b, h += h << 10, h ^= h >> 6 |
| `HashWords.FinishIsMachine` | gpu/src/common/hash.h:50-52 | and the finalizer h += h << 3, h ^= h >> 11, h += h << 15 |
| `HashWords.Hash` | gpu/src/common/hash.h:8-55 | the hash computed with 32-bit machine operations is the modelled one, for every key |
| `HashWords.LetterHash` | gpu/src/common/hash.h:8-55 | the published value of the key "a", 0xca2e9442 |
| `ByteHash.MixInjective` | gpu/src/common/hash.h:14-16 | one mixing round never merges two states |
| `ByteHash.MixSeparates` | gpu/src/common/hash.h:14-16 | and never gives two bytes the same result |
| `ByteHash.FinishInjective` | gpu/src/common/hash.h:50-52 | the finalizer never merges two states |
| `ByteHash.OneByteChangesHash` | gpu/src/common/hash.h:8-55 | keys of the same length that differ in exactly one byte never hash alike |
| `ByteHash.Hash8IsHash` | gpu/src/common/hash.h:57-71 | equals the general hash of the byte |
| `ByteHash.Hash16IsHashReversed` | gpu/src/common/hash.h:73-90 | equals the general hash of the two bytes in the opposite order |
| `ByteHash.Hash32IsHash` | gpu/src/common/hash.h:92-115 | equals the general hash of the four little-endian bytes |
| `ByteHash.Hash64IsHash` | gpu/src/common/hash.h:117-152 | equals the general hash of the eight little-endian bytes |
| `HandlerInstallation.InvariantKept` | gpu/src/common/hostException.cpp:123-149 | every atomic step of every call keeps the installation invariant; in state 2 nothing shared changes again |
| `HandlerInstallation.Reachable` | gpu/src/common/hostException.cpp:123-149 | so it holds in every interleaving |
| `HandlerInstallation.FilterIsSafe` | gpu/src/common/hostException.cpp:109-118 | at most one filter is registered, and a registered one always sees a non-zero state and a handler |
| `HandlerInstallation.SuccessIsFinal` | gpu/src/common/hostException.cpp:123-149 | once a call has returned true, its handler stays installed for the rest of the run |
| `HandlerInstallation.SuccessesAgree` | gpu/src/common/hostException.cpp:129-130 | all successful calls were given the same handler |
| `HandlerInstallation.Installer.Install` | gpu/src/common/hostException.cpp:123-149 | a call alone: its result and every field, including the full rollback of a failed registration |
| `HandlerInstallation.AloneAgrees` | gpu/src/common/hostException.cpp:123-149 | the atomic steps of an undisturbed call come to the same |

## Left out

- ElfSegments.CopySegments: asks that no segment's end in the file passes 2^64 and that the larger of file and memory size fits the image; beyond that `src/loader.cpp:256-266` copies out of bounds.
- ElfRelocation.RelocateRela: the addresses found for GLOB_DAT and R_X86_64_64 symbols are an arbitrary partial function of the entry, the same at every base; allocation of their cells and the filling of vtables belong to core.cpp, which is not part of this model.
- ElfRelocation.HookJumpSlots: native functions are an arbitrary partial function of the index; names are not recorded.
- ImportScan.ResolveImports: addresses outside the image count as faulting, and whether a page can be made writable is an arbitrary predicate; overlapping stub matches are scanned as in the code, but idempotence is claimed only for stubs 16 bytes apart whose slots neither make nor break a stub when patched; the counters are not kept.
- LoaderPipeline.Load: the search for the ELF header, the program-header and dynamic-tag parsing, the entry point, syscall patching (off by default) and TLS set-up are not modelled; their results are parameters. Symbol and string tables are present or absent together.
- X86Runs.Instruction: memory is sequentially consistent, each thread's stack is its own, and code bytes are not written by stores; only the instruction forms that the trampolines use are decoded, and the decoder gives up on others.
- Spinlock.EventKeeps: the called function is arbitrary, but leaves the page alone and returns to its caller with the stack and rsp as before the call; a call that comes back to the trampoline from inside it would spin for ever and is not an event.
- Emission.EmitSpinlock: the two detours to it use a 32-bit distance that `src/loader.cpp:986-997` does not check; only the checked patch sites are modelled.
- AudioFormats.Convert: the arithmetic on sample values (scaling, clamping, downmix) is floating point and left open; only which samples go where is stated. The packet is a sequence of samples rather than of bytes.
- AudioRing.Port.Output: the device completes packets only at the points of Output that the model names, marking a header done and setting the event as one step; headers and buffers are sequences reassigned by index; opening, closing, volume, the invalid port and the port without a device are not modelled.
- EventFlagSystem.Reachable: the waiter count is unbounded; null result pointers and the length of timeouts are not modelled, so a timeout may come at any time.
- FiberCalls.Process.Run: EnsureThreadIsFiber and CreateFiber always succeed; null out-pointers, stack sizes and Finalize of a fiber that is in use, or Initialize of a fiber that exists, are not modelled.
- FiberCalls.Process.Finalize: asks that handles have different fibers, which `HandlesStayApart` proves of every run.
- StubBytes.LoadedBinds: asks that relocation spares the searched code, and that the stubs of the relocated image are well formed and agree about the slot.
- FiberStacks.StacksKept: claimed only for runs in which Run and Switch enter fibers that are on no chain and whose last result has been read; `ThreadRegainedIff`, `CutChainSticks` and `ReturnValueDelivered` say what happens otherwise.
- FiberCalls.Process.Switch: the same two failures are not modelled.
- RebasedLoad.LoadedAgrees: asks that jump slots and RELATIVE slots are apart and that the stub search finds the same stubs at both bases; a RELATIVE value that happens to look like a stub is outside the claim.
- Times.Time.Subtract: the product of seconds and 1000 is unbounded, as for Add.
- Times.Time.Add: the product of seconds and 1000 is unbounded; the 32-bit product overflows beyond 2147483 seconds.
- Dates.Date.Subtract: the same two limits as for Add.
- Dates.Date.Add: the sum of days is unbounded, and the number that stands for the invalid date is moved like a day, as `gpu/src/common/dateTime.h:74-77` does; JulianDayRange states the 32-bit range of the conversions.
- HandlerInstallation.Reachable: atomics are sequentially consistent; the classification of exceptions is not modelled.
- Formatting and parsing of dates, conversion to Unix time, 12-hour clock: lookups and floating point.
- Fixed byte patches for single games, NID tables, profiles, logging, environment switches, video, shaders: constants, plumbing or unseen libraries.
