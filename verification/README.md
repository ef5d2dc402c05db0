# A verified model of the algorithms in RE-UE4SS

RE-UE4SS injects a scripting system into Unreal Engine games, and UVTD is the
offline tool that reads engine debug files and generates the code the injected
library needs to work on every engine version. Most of it is plumbing. This
project models the parts that are algorithms over unbounded input, in the form
the program gives them (loops as loops, updated objects as classes), ties every
operation to a specification function or a property, and proves what those
specifications promise over all inputs, all runs and all interleavings.

One module models one component; the files carry the module names.

* `TypeContainer`, `TypeHistory`, `JoinOrder`, `TableContents`: versioned merging of
  class tables, the compressed history of type changes it leaves on every member,
  which orders of joining keep that history faithful, and what else the merged
  table holds.
* `TypeNormalizer`, `TypeTree`: the string rewriting that decides when two C++
  types are the same, proved against a grammar of type trees.
* `VersionKeys`, `GetterGenerator`, `GetterCorrectness`: the order of versions,
  the two getter passes, and the end-to-end theorem from the joins to the getter
  that is in force at a version.
* `CrashRecovery`: four kinds of `sigsetjmp` region under one fault handler.
* `Sync`: the two-thread handshake on one atomic, as a state machine.
* `EventQueue`, `ModList`: the batched event queue and the hot-reloaded mods.
* `SettingsIni`, `MemberOffsets`, `ExportsFile`, `DiscordWebhook`,
  `TemplateClassParser`: printers and parsers that have to undo each other.
* `VirtualGenerator`: the nested conditional includes of a generated file.
* `VTableLayout`, `NativesScan`: 32-bit offset arithmetic along an inheritance
  chain, and a streaming search for a table of code pointers.
* `Text`, `Streams`, `Numerals`: the string and number library these rest on.

## What the properties say, and where the code falls short of them

Several promises hold only under a condition. Each of these is stated as an
equivalence, with the condition a caller can check, or with the failing input.

* The emitted getters follow the versions exactly when, among the types that were
  joined and do not give way to an object pointer, no normal form comes back after
  another has replaced it. Two PDBs of one version are allowed, as in the default
  list, which has a plain and a case-preserving build of 4.27
  (`GettersFollowTheVersions`).
* One pass of the normaliser reaches the normal form exactly when no gap holds two
  blanks and no allocator holds one (`NormalFormReachedIff`).
* Ascending joins keep the history lossless. In any other order a merge keeps it
  faithful exactly when it passes a test on the table as it stands: an unchanged
  type must already be the recorded one at its version, and a changed one must be
  right for every joined version its record will cover (`MergeStaysFaithfulIff`,
  over whole runs `FaithfulThroughoutIff`).
* A versioned merge takes over a member's new offset exactly when its type stays,
  and its new size exactly when it changes (`MergeTakesOffsetIff`), so after a type
  change the offset is the old one (`OffsetAndSize`).
* Neighbouring records of the history differ exactly when no version takes back a
  change that another PDB of the same version made (`HistoryIsMinimalIff`).
* Keys of all majors below a bound sort like their versions exactly when the bound
  is at most ten, and suffixes of all minors below a bound tell versions apart
  exactly when it is at most a hundred (`MajorsSortRightIff`,
  `SuffixesTellApartIff`).
* A fault that jumps over an open region of lower priority leaves that region's
  flag set, and a later fault jumps into a dead frame. No number of faults ends
  there exactly when the armed regions rise in priority towards the innermost
  (`NeverStaleIffRising`), which an entry keeps exactly when every other armed
  region has a lower priority (`EnterKeepsRisingIff`, by name `EntryTest`). A region entered inside
  another of its kind takes that one's protection away (`ProtectedIff`).
* A sync request is safe exactly when the state is `Idle` (`RequestIsSafeIff`), and
  `sync_and_execute` loses its wake-up exactly when main is already asleep
  (`ExecuteLosesWakeUpIff`).
* An INI entry survives printing and parsing exactly when it is `Printable`
  (`EntrySurvivesIff`); a bitfield layout exactly when its offset is not negative
  and its storage size fits a byte (`RoundTripIff`); an export file exactly when
  each entry survives (`FileRoundTripIff`).
* A named export carries the ordinal of its function exactly when the library
  numbers from one (`NamedOrdinalRightIff`): named ordinals get a fixed one where
  the unnamed ones get the base. A function can lose its entry to that; from which
  bases none does is `NothingIsLostIff`, in which tables `EveryFunctionHasOwnIff`.
* A stored vtable offset is the position in the flattened vtable exactly when no
  base class has an empty list (`StoredOffsetIff`).
* Template arguments come back exactly when the last one is not empty
  (`ParsesExactlyIff`), and the unsigned counter wraps exactly when a bracket
  closes too much before the parser stops (`CounterWrapsIff`).
* The shell reads the webhook URL as one word exactly when it has no single quote
  (`CommandReadsIff`).

## Model

| member | source | states |
|---|---|---|
| VersionKeys.LessTotal | UVTD/src/TypeContainer.cpp:98-110 | the key order of the history map is a total order |
| VersionKeys.LessTransitive | UVTD/src/TypeContainer.cpp:98-110 | and transitive |
| VersionKeys.CanonicalOrder | UVTD/include/UVTD/PDBNameInfo.hpp:81 | keys sort as text exactly as versions sort as numbers, for the naming convention of one digit and two digits |
| VersionKeys.MajorsSortRightIff | UVTD/include/UVTD/PDBNameInfo.hpp:81 | all majors below a bound sort like their versions iff the bound is at most ten |
| VersionKeys.MajorTenBreaksTheOrder | UVTD/include/UVTD/PDBNameInfo.hpp:81 | the first pair beyond the bound: 10.00 sorts before 4.25 |
| TypeContainer.TypeContainer.constructor | UVTD/src/UVTD.cpp:57 | a new container has no classes and no source |
| TypeContainer.TypeContainer.GetOrCreateClassEntry | UVTD/src/TypeContainer.cpp:149-172 | which key is looked up, which is inserted, and that only that entry changes |
| TypeContainer.TypeContainer.JoinClass | UVTD/src/TypeContainer.cpp:23-46 | the whole new table after one class is merged: functions overwritten, members merged by name, in order |
| TypeContainer.TypeContainer.MergeInto | UVTD/src/TypeContainer.cpp:77-127 | two members of one name: type change recorded with the original first, or offset and bits updated |
| TypeContainer.TypeContainer.JoinClasses | UVTD/src/TypeContainer.cpp:60-134 | each class of the other table is merged once, in some order of the hash map |
| TypeContainer.TypeContainer.Join | UVTD/src/TypeContainer.cpp:18-54 | the plain join: table folded, source taken over only if there was none |
| TypeContainer.TypeContainer.JoinVersioned | UVTD/src/TypeContainer.cpp:56-147 | the versioned join: table folded against the source before the join, source becomes the earliest version |
| TableContents.ArrayNamesUnify | UVTD/src/Helpers.cpp:44-68 | the first occurrence of the first of the three array names that occurs becomes `TUObjectArray` |
| TableContents.OtherNamesStay | UVTD/src/Helpers.cpp:64-67 | a name without any of them stays as it is |
| TableContents.JoinTableClass | UVTD/src/TypeContainer.cpp:149-171 | either join takes the vtable flag and the member flag of every class it merges, each as its own; a class keeps its names, a new one gets its unified name |
| TableContents.LastValidityWins | UVTD/src/TypeContainer.cpp:18-147 | after any joins of either kind a class is dumped for what the last PDB that has it says, under the names the first one gave it |
| TableContents.PlainJoinsOverwrite | UVTD/src/TypeContainer.cpp:18-54 | after any plain joins every member and virtual function is as the last PDB that has it declares it |
| TableContents.SourceIsEarliest | UVTD/src/TypeContainer.cpp:136-146 | in whatever order PDBs are joined, the source is the first of the earliest |
| TableContents.OffsetAndSize | UVTD/src/TypeContainer.cpp:112-125 | after any versioned joins a member has the offset of the last PDB that did not change its type, and the size of the last one that did |
| TableContents.MergeTakesOffsetIff | UVTD/src/TypeContainer.cpp:112-125 | a merge takes the new offset iff the type stays, and the new size iff it changes, unless they are equal |
| TableContents.RecordsAreSnapshots | UVTD/src/TypeContainer.cpp:85-110 | every record says, in key, version, type, size and bits, what some joined PDB declares, or what the table held before its first change under the source of that time |
| TypeHistory.JoinOneVariable | UVTD/src/TypeContainer.cpp:70-133 | merging one variable changes the member of its name and no other |
| TypeHistory.JoinManyVariables | UVTD/src/TypeContainer.cpp:70-133 | merging a class merges every member independently, whatever their order |
| TypeHistory.JoinTableMember | UVTD/src/TypeContainer.cpp:60-134 | a join acts on each member of each class by itself: the order of the hash map does not matter |
| TypeHistory.LastFunctionWins | UVTD/src/TypeContainer.cpp:65-68 | after any joins every virtual-function slot holds the function of the last version that has one there |
| TypeHistory.NewestWins | UVTD/src/TypeContainer.cpp:112-125 | after any joins a member has the type and bitfield layout of the last PDB that has it |
| TypeHistory.HistoryIsLossless | UVTD/src/TypeContainer.cpp:70-146 | after any ascending joins, equal versions included, the member exists iff some PDB had it; looking up any version from the source's on in the history gives the type the member had there; and beyond the source exactly the versions at which the type changes have a record |
| TypeHistory.TypeAtOwnVersion | UVTD/src/TypeContainer.cpp:70-133 | for distinct versions the reference lookup at a joined version is that version's type |
| TypeHistory.HistoryIsMinimalIff | UVTD/src/TypeContainer.cpp:80-118 | for any ascending joins, equal versions included: neighbouring records differ iff no version takes a change back, and a single record is left iff all changes are between PDBs of the first version |
| TypeHistory.HistoryIsMinimal | UVTD/src/TypeContainer.cpp:80-118 | for distinct versions the history is always minimal |
| JoinOrder.PutInForce | UVTD/src/TypeContainer.cpp:110 | recording at any version changes the lookup of exactly the versions up to the next record |
| JoinOrder.MergeStaysFaithfulIff | UVTD/src/TypeContainer.cpp:77-127 | in any order of versions, one merge keeps the record faithful iff it passes a test on the state before it |
| JoinOrder.FaithfulThroughoutIff | UVTD/src/TypeContainer.cpp:56-147 | over any run of joins in any order the record is faithful after every join iff every join passes the test |
| JoinOrder.AscendingIsFaithful | UVTD/src/TypeContainer.cpp:56-147 | ascending joins pass every test |
| JoinOrder.OutOfOrderIsLossy | UVTD/src/TypeContainer.cpp:136-146 | an instance that fails the test: mid, lo, hi with types B, A, A records B at hi |
| TypeHistory.VariantsAreNotMinimal | UVTD/src/TypeContainer.cpp:80-118 | an instance of a version that takes a change back: A, then B and A at one later version |
| Text.ReplaceEach | UVTD/src/MemberVarsWrapperGenerator.cpp:49-62 | the in-place find-and-replace loop whose cursor stays put ends, and equals one left-to-right rewriting |
| TypeNormalizer.NormalizeTypeForComparison | UVTD/src/MemberVarsWrapperGenerator.cpp:43-113 | the five in-place loops compute the composition of five string functions |
| TypeNormalizer.UnwrapObjectPointers | UVTD/src/MemberVarsWrapperGenerator.cpp:76-102 | the object-pointer loop terminates and unwraps from the left, rescanning the unwrapped text |
| TypeNormalizer.FindClosing | UVTD/src/MemberVarsWrapperGenerator.cpp:80-89 | the depth counter finds the first position where the brackets close, or knows there is none |
| TypeTree.AllocPass | UVTD/src/MemberVarsWrapperGenerator.cpp:47-54 | on printed trees the allocator pass replaces exactly the tight `TSizedDefaultAllocator<32>` nodes |
| TypeTree.SqueezePass | UVTD/src/MemberVarsWrapperGenerator.cpp:56-62 | on printed trees a blank pass shortens every gap before its character by one blank and changes nothing else |
| TypeTree.ClosingPass | UVTD/src/MemberVarsWrapperGenerator.cpp:80-89 | the bracket counter steps over any printed tree, at any depth |
| TypeTree.RawPass | UVTD/src/MemberVarsWrapperGenerator.cpp:76-102 | on printed trees the pointer pass turns every `TObjectPtr<X>` into `X*` at every depth |
| TypeTree.NormalizesPrinted | UVTD/src/MemberVarsWrapperGenerator.cpp:43-113 | what normalising the print of any tree gives, with any gaps and any blanks at the end: the print of the tidied tree |
| TypeTree.NormalFormReachedIff | UVTD/src/MemberVarsWrapperGenerator.cpp:43-113 | the result is the tight normal form iff the gaps are clean, whatever blanks are at the end |
| TypeTree.NormalFormIsFixed | UVTD/src/MemberVarsWrapperGenerator.cpp:43-113 | a tight normal form is a fixed point |
| TypeTree.ArrayOfPointers | UVTD/src/MemberVarsWrapperGenerator.cpp:64-102 | `TArray<TObjectPtr<X> >` normalises to `TArray<X*>`, for any X |
| TypeTree.ArrayWithAllocator | UVTD/src/MemberVarsWrapperGenerator.cpp:43-62 | `TArray<X,TSizedDefaultAllocator<32> >` normalises to `TArray<X,FDefaultAllocator>`, for any X |
| TypeTree.TwoBlanksDefeatOnePass | UVTD/src/MemberVarsWrapperGenerator.cpp:56-62 | an input with two blanks before `>` that one pass does not normalise |
| TypeTree.BlankInAllocatorDefeatsOnePass | UVTD/src/MemberVarsWrapperGenerator.cpp:47-54 | an allocator with an inner blank that the earlier pass misses |
| GetterGenerator.ShouldSkip | UVTD/src/MemberVarsWrapperGenerator.cpp:117-136 | a type is skipped iff it is a raw pointer outside a container and some version is an object pointer |
| GetterGenerator.CountGetters | UVTD/src/MemberVarsWrapperGenerator.cpp:366-398 | the count is the number of distinct normal forms kept, and the single-getter type is the newest kept |
| GetterGenerator.EmitGetters | UVTD/src/MemberVarsWrapperGenerator.cpp:449-528 | the emitted getters are one for each normal form, at its first version, `Base` first |
| GetterGenerator.PlanGetters | UVTD/src/MemberVarsWrapperGenerator.cpp:361-539 | the choice between a plain, a unified and several versioned getters, over both passes |
| GetterCorrectness.InForceIsNewest | UVTD/src/MemberVarsWrapperGenerator.cpp:449-528 | the getter in force at a recorded version belongs to the newest normal form that was new by then |
| GetterCorrectness.RightIffContiguous | UVTD/src/MemberVarsWrapperGenerator.cpp:466-475 | every getter in force is right iff each normal form occupies one contiguous run |
| GetterCorrectness.SomeVariantIsKept | UVTD/src/MemberVarsWrapperGenerator.cpp:117-136 | skipping raw pointers never leaves a non-empty history without a getter |
| GetterCorrectness.BarePointersGetNone | UVTD/src/MemberVarsWrapperGenerator.cpp:117-136 | once some version is a `TObjectPtr<`, no planned getter has a type that ends in `*` unless it starts as an object pointer or container |
| GetterCorrectness.OthersGetOne | UVTD/src/MemberVarsWrapperGenerator.cpp:117-136 | every other recorded type has a planned getter with its normal form |
| GetterCorrectness.PlanKindIff | UVTD/src/MemberVarsWrapperGenerator.cpp:361-447 | a plain getter iff there is no recorded change, the member is inherited or a bitfield; otherwise one getter for all versions iff the kept types have one normal form |
| GetterCorrectness.UnifiedIsNewest | UVTD/src/MemberVarsWrapperGenerator.cpp:390-398 | the one getter has the type of the newest record that is kept |
| GetterCorrectness.GetterStems | UVTD/src/MemberVarsWrapperGenerator.cpp:449-528 | each of several getters has the type and version of the first kept record of its normal form |
| GetterCorrectness.GettersAreNamed | UVTD/src/MemberVarsWrapperGenerator.cpp:477-497 | the first getter is `Base`, and the suffix of each other, read as a number, is a hundred times the major version plus the minor one |
| GetterCorrectness.SuffixesAreDistinct | UVTD/src/MemberVarsWrapperGenerator.cpp:13-16 | suffixes are equal iff the versions are, for minors below 100, and none is `Base` |
| GetterCorrectness.SuffixesTellApartIff | UVTD/src/MemberVarsWrapperGenerator.cpp:13-16 | suffixes tell all versions with minors below a bound apart iff the bound is at most a hundred |
| GetterCorrectness.ThreeDigitMinorsClash | UVTD/src/MemberVarsWrapperGenerator.cpp:13-16 | the first clash beyond the bound: 1.100 and 11.00 |
| GetterCorrectness.GetterNamesAreDistinct | UVTD/src/MemberVarsWrapperGenerator.cpp:477-497 | no two getters of a member have one name |
| GetterCorrectness.GettersRightIff | UVTD/src/MemberVarsWrapperGenerator.cpp:361-539 | for any faithfully recorded member, equal versions included: the planned getter has the right normal form at every version whose type does not give way iff no normal form returns among the joined types |
| GetterCorrectness.GettersFollowTheVersions | UVTD/src/MemberVarsWrapperGenerator.cpp:361-539 | end to end, from the versioned joins to the getter in force at every version, with guard and condition on the joined types alone |
| GetterCorrectness.GettersFollowDistinctVersions | UVTD/src/MemberVarsWrapperGenerator.cpp:361-539 | the same for distinct versions, where the types are the versions' own |
| CrashRecovery.Thread.constructor | UE4SS/src/main_linux.cpp:88-99 | no region is open and no flag set |
| CrashRecovery.Thread.Enter | UE4SS/src/main_linux.cpp:155-165 | entering a region fills the buffer of its kind, sets its flag and pushes its frame |
| CrashRecovery.Thread.Exit | UE4SS/src/main_linux.cpp:165-168 | a body that returns clears its flag and pops its frame |
| CrashRecovery.Thread.Jump | UE4SS/src/main_linux.cpp:124-146 | the flag is cleared, except init's; the jump unwinds to the frame that filled the buffer, or goes stale if it has returned |
| CrashRecovery.Thread.Fault | UE4SS/src/main_linux.cpp:103-151 | the handler's order mod, alloc, iter, init; fatal iff no flag is set; the flags it leaves in each case |
| CrashRecovery.LiveFaultIsCaught | UE4SS/src/main_linux.cpp:103-151 | under a live flag of highest priority exactly that frame returns false and everything above it is gone |
| CrashRecovery.HandlerOrder | UE4SS/src/main_linux.cpp:124-151 | a fault goes to mod if mod is armed, to alloc if mod is not, to iteration if neither is, to init only when it alone is armed, and is fatal iff no flag is set |
| CrashRecovery.LiveRegionCatches | UE4SS/src/main_linux.cpp:124-146 | by name: a live region is the one returned to iff the kinds before it are not armed; an iteration under init returns to the iteration |
| CrashRecovery.StaleJumpDisarms | UE4SS/src/main_linux.cpp:124-146 | a jump to a dead frame has cleared its flag, but not init's, and nothing else |
| CrashRecovery.FaultKeepsLiveIff | UE4SS/src/main_linux.cpp:124-141 | a fault keeps a region's flag truthful iff it does not cross the region's frame |
| CrashRecovery.RunKeepsLive | UE4SS/src/main_linux.cpp:103-202 | in any run that never crosses an open frame of the kind, its flag means its frame is on the stack |
| CrashRecovery.ModFaultsAreCaught | UE4SS/src/main_linux.cpp:124-129 | in every run a set mod flag means a fault returns to exactly the mod frame |
| CrashRecovery.UncrossedRunsHaveNoStaleJump | UE4SS/src/main_linux.cpp:103-151 | a run without crossings never jumps into a dead frame |
| CrashRecovery.NextFaultIsStaleIff | UE4SS/src/main_linux.cpp:124-141 | after a caught fault the next one goes stale iff the chosen region was crossed |
| CrashRecovery.ModJumpLeavesAllocDangling | UE4SS/src/main_linux.cpp:124-135 | alloc inside mod: the second fault jumps into a dead frame |
| CrashRecovery.ThrowLeavesDanglingIff | UE4SS/src/main_linux.cpp:164-167 | a body that throws leaves a dangling flag iff the flag was still set |
| CrashRecovery.NeverStaleIffRising | UE4SS/src/main_linux.cpp:124-146 | in a sound state no number of faults in a row jumps to a dead frame iff the armed frames rise in priority towards the innermost |
| CrashRecovery.EnterKeepsRisingIff | UE4SS/src/main_linux.cpp:155-165 | an entry keeps that order iff every other armed kind has a lower priority |
| CrashRecovery.EntryTest | UE4SS/src/main_linux.cpp:124-165 | the test by name: mod can always be entered, alloc iff mod is not armed, iteration iff neither is, init iff nothing else is |
| CrashRecovery.OrderedRunsNeverGoStale | UE4SS/src/main_linux.cpp:103-202 | every run whose entries pass this test stays sound and never goes stale, whatever faults follow |
| CrashRecovery.ProtectedIff | UE4SS/src/main_linux.cpp:164-166 | an open region stays the one a fault of its kind returns to iff no region of its kind was entered inside it |
| Sync.RunKeepsInvariant | UE4SS/src/Sync.cpp:5-22 | the protocol invariant holds along every disciplined interleaving, spurious wake-ups included |
| Sync.BodiesNeverOverlap | UE4SS/include/Sync.hpp:46-56 | the requester's body runs only while main is parked; the states cycle and each request is served once |
| Sync.NoWakeUpIsLost | UE4SS/include/Sync.hpp:52-56 | in the scoped form nobody sleeps on a value that is gone without a pending notification |
| Sync.PendingIsBounded | UE4SS/src/Sync.cpp:13-22 | a pending request is over after at most 14 steps plus two for each spurious wake-up |
| Sync.PendingIsNeverStuck | UE4SS/src/Sync.cpp:13-22 | while a request is pending some thread can step |
| Sync.ExecuteLosesWakeUpIff | UE4SS/src/Sync.cpp:5-11 | `sync_and_execute` loses the wake-up iff main is already waiting when the body ends |
| Sync.ExecuteCanLoseWakeUp | UE4SS/src/Sync.cpp:10 | such a state is reachable, and only a spurious wake-up leaves it |
| Sync.EarlyRequestOverlaps | UE4SS/src/Sync.cpp:19-20 | any request before main is back at `Idle` can be continued to overlapping bodies |
| Sync.RequestIsSafeIff | UE4SS/src/Sync.cpp:15-20 | a request is safe iff the state is `Idle` |
| EventQueue.EventLoop.constructor | UE4SS/src/UE4SSProgram.cpp:3644 | the queue starts empty and the loop stopped |
| EventQueue.EventLoop.QueueEvent | UE4SS/src/UE4SSProgram.cpp:4824-4832 | an event is appended iff the loop is processing |
| EventQueue.EventLoop.RunFrame | UE4SS/src/UE4SSProgram.cpp:3644-3670 | the stateful in-place removal runs and removes exactly the first five or fewer, in order |
| EventQueue.ExactlyOnceInOrder | UE4SS/src/UE4SSProgram.cpp:3651-3670 | over any run executed plus waiting is what was accepted, in order, and execution is never undone |
| EventQueue.ServedOnTime | UE4SS/src/UE4SSProgram.cpp:3655-3667 | an event with p ahead of it has run iff more than p/5 active turns have passed, whatever is queued later |
| EventQueue.DrainsInCeiling | UE4SS/src/UE4SSProgram.cpp:3655-3667 | n events are gone after exactly n/5 turns rounded up |
| ModList.Program.constructor | UE4SS/include/Mod/Mod.hpp:29-30 | no mods, ids from one |
| ModList.Program.FindModById | UE4SS/src/UE4SSProgram.cpp:4281-4295 | the first mod with the id, never for the invalid id |
| ModList.Program.FindLuaModById | UE4SS/src/UE4SSProgram.cpp:4297-4300 | a mod is found iff the id is not 0 and the first mod with it is a Lua mod; then it is that one |
| ModList.Program.DeleteMod | UE4SS/src/UE4SSProgram.cpp:4260-4274 | the first pointer equal to the mod is erased, and nothing when there is none |
| ModList.Program.InstallMod | UE4SS/src/Mod/Mod.cpp:44-47 | a constructed mod goes to the end with the next id |
| ModList.Program.ReinstallMod | UE4SS/src/UE4SSProgram.cpp:4346-4390 | removed where it was, constructed anew at the end with its name, or nothing changes |
| ModList.Program.UninstallMod | UE4SS/src/UE4SSProgram.cpp:4392-4420 | removed where it was, or nothing changes |
| ModList.Program.UninstallMods | UE4SS/src/UE4SSProgram.cpp:4256 | all mods go, the id counter stays |
| ModList.RunKeepsValid | UE4SS/src/UE4SSProgram.cpp:4422-4464 | ids stay distinct and below the counter in every run |
| ModList.RemovedIdsStayRemoved | UE4SS/src/UE4SSProgram.cpp:4436-4444 | a removed id never names a mod again, so a late request for it changes nothing |
| ModList.RequestsRemoveIff | UE4SS/src/UE4SSProgram.cpp:4422-4464 | either request takes the id it names off the list iff a listed Lua mod has it, and changes nothing otherwise |
| ModList.UninstallAllEmpties | UE4SS/src/UE4SSProgram.cpp:4224-4258 | uninstalling all empties the list and keeps the id counter |
| ModList.InstallsInOrder | UE4SS/src/Mod/Mod.cpp:44-47 | any number of mods installed in a row are listed in that order under consecutive ids |
| ModList.UntouchedKeepOrder | UE4SS/src/UE4SSProgram.cpp:4346-4420 | mods no request names keep their relative order in every run |
| ModList.ReinstallsKeepNames | UE4SS/src/UE4SSProgram.cpp:4360-4387 | any number of reinstalls keeps the multiset of names |
| ModList.UninstallTakesName | UE4SS/src/UE4SSProgram.cpp:4392-4420 | an uninstall takes one copy of the name of the Lua mod with the id, and none if there is no such mod |
| ModList.ReinstallMovesToEnd | UE4SS/src/UE4SSProgram.cpp:4377-4387 | the new mod is last, with the old name and an unused id, the others before it as they stood |
| Streams.GetLine | UE4SS/src/SettingsManager.cpp:68 | one line is split off, the rest are the remaining lines |
| Streams.FinalNewline | UE4SS/src/SettingsManager.cpp:68 | a missing newline at the end of a file does not change its lines |
| SettingsIni.TrimBlanks | UE4SS/src/SettingsManager.cpp:73-76 | the two-sided search and cut trims exactly the blanks at both edges |
| SettingsIni.ParseLine | UE4SS/src/SettingsManager.cpp:70-99 | one line acts on section and map as its meaning says |
| SettingsIni.Deserialize | UE4SS/src/SettingsManager.cpp:60-107 | the loop folds the meanings of the lines |
| SettingsIni.EntrySurvivesIff | UE4SS/src/SettingsManager.cpp:86-99 | `key = value` reads back iff the pair is printable: the exact domain of the parser |
| SettingsIni.DocumentMeaning | UE4SS/src/SettingsManager.cpp:68-99 | any document of entries, headers, comments, blanks and junk, with any edge blanks and carriage returns, parses to its items |
| SettingsIni.LayoutDoesNotMatter | UE4SS/src/SettingsManager.cpp:71-78 | two documents with the same headers and entries parse alike |
| SettingsIni.LookupIsLastGiven | UE4SS/src/SettingsManager.cpp:99 | repeated keys resolve to the last one given |
| SettingsIni.FileSaysLast | UE4SS/src/SettingsManager.cpp:110-116 | looking a key up in the parsed text gives the last entry of its section |
| SettingsIni.EdgesDoNotMatter | UE4SS/src/SettingsManager.cpp:73-76 | a blank or a tab at either edge of a line does not change what it means |
| SettingsIni.EveryTextIsADocument | UE4SS/src/SettingsManager.cpp:68-99 | every text at all is such a document, but for a newline missing at its end |
| SettingsIni.TextSaysLast | UE4SS/src/SettingsManager.cpp:60-116 | so for every text a lookup gives the last value of the key in its section |
| SettingsIni.PrintedSettingsParseBack | UE4SS/src/SettingsManager.cpp:60-107 | any printable map of sections, printed in any order, parses back to itself |
| VirtualGenerator.FindClassEntry | UVTD/src/UnrealVirtualGenerator.cpp:84-90 | the first entry whose key or class name matches |
| VirtualGenerator.SameClass | UVTD/src/UnrealVirtualGenerator.cpp:84-90 | the class found is the first one stored or named under the name |
| VirtualGenerator.EmitVTableLines | UVTD/src/UnrealVirtualGenerator.cpp:79-105 | the vtable includes of the eligible classes, in order |
| VirtualGenerator.EmitLayout | UVTD/src/UnrealVirtualGenerator.cpp:125-154 | the member-layout includes of one suffix or of the default |
| VirtualGenerator.EmitBlocks | UVTD/src/UnrealVirtualGenerator.cpp:116-157 | one opened conditional for each active suffix, collected in order |
| VirtualGenerator.EmitEndifs | UVTD/src/UnrealVirtualGenerator.cpp:190-194 | one closing line for each active suffix |
| VirtualGenerator.GenerateSource | UVTD/src/UnrealVirtualGenerator.cpp:61-197 | the whole file, or none for a suffixed PDB |
| VirtualGenerator.SourceSelectsOneLayout | UVTD/src/UnrealVirtualGenerator.cpp:61-197 | for any suffixes and any set of defined macros the file preprocesses, balanced, to the vtable includes and exactly one layout: the first defined suffix or the default |
| VirtualGenerator.BuildIncludes | UVTD/src/UnrealVirtualGenerator.cpp:61-197 | which paths a build includes, in order, whatever macros it defines: own header, configured headers, one vtable file for each item that has one, one layout file for each item with members, named by base version, tag and clean class name |
| VirtualGenerator.BuildHasTag | UVTD/src/UnrealVirtualGenerator.cpp:116-123 | every build has exactly one tag: that of the first variant suffix whose macro it defines, or none |
| VirtualGenerator.VariantsDiffer | UVTD/src/UnrealVirtualGenerator.cpp:149-152 | different tags include different layout files |
| VirtualGenerator.BlocksPass | UVTD/src/UnrealVirtualGenerator.cpp:116-188 | the nested blocks select one layout inside any enclosing conditionals |
| VirtualGenerator.EndifsPass | UVTD/src/UnrealVirtualGenerator.cpp:190-194 | the closing lines close exactly what the blocks opened |
| DiscordWebhook.EscapeJson | UE4SS/src/DiscordWebhook.cpp:12-40 | the escaping loop escapes every character by itself |
| DiscordWebhook.QuoteBody | UE4SS/src/DiscordWebhook.cpp:46-56 | the quoting loop |
| DiscordWebhook.CurlCommand | UE4SS/src/DiscordWebhook.cpp:42-59 | the command line |
| DiscordWebhook.SendMessage | UE4SS/src/DiscordWebhook.cpp:111-123 | the command for a message, or none without a URL |
| DiscordWebhook.SendEmbed | UE4SS/src/DiscordWebhook.cpp:93-109 | the command for an embed, or none without a URL |
| DiscordWebhook.BodyIsOneWord | UE4SS/src/DiscordWebhook.cpp:44-59 | the shell reads the quoted body as one word equal to the body, for any bytes |
| DiscordWebhook.CommandWords | UE4SS/src/DiscordWebhook.cpp:42-59 | the words the shell passes to `curl`: the options, the body as the argument of `-d`, and what is left is the URL and the redirection |
| DiscordWebhook.CommandReadsIff | UE4SS/src/DiscordWebhook.cpp:44-59 | after the body come the URL as one word and the redirection iff the URL has no single quote |
| DiscordWebhook.EscapedReads | UE4SS/src/DiscordWebhook.cpp:12-40 | a JSON reader turns the escaped text back into the text (section 7 of RFC 8259) |
| DiscordWebhook.EscapedIsClean | UE4SS/src/DiscordWebhook.cpp:12-40 | the escaped text has no control byte and no unescaped quotation mark |
| DiscordWebhook.MessageArrives | UE4SS/src/DiscordWebhook.cpp:111-123 | shell word, then JSON: the receiver decodes the original message |
| DiscordWebhook.EmbedArrives | UE4SS/src/DiscordWebhook.cpp:93-109 | the same for title, description and colour |
| TemplateClassParser.Parse | UVTD/src/TemplateClassParser.cpp:5-49 | both loops compute the specified scan, with a wrapping counter |
| TemplateClassParser.CounterFollowsDepth | UVTD/src/TemplateClassParser.cpp:21-40 | inside an argument the unsigned counter is one more than the unbounded depth: it never wraps |
| TemplateClassParser.ParsesListed | UVTD/src/TemplateClassParser.cpp:5-49 | name and arguments come back whatever follows, but for an empty last argument |
| TemplateClassParser.ParsesExactlyIff | UVTD/src/TemplateClassParser.cpp:46 | they come back exactly iff the last argument is not empty |
| TemplateClassParser.EveryBalancedBodyIsAList | UVTD/src/TemplateClassParser.cpp:37-42 | every balanced text is a list of arguments |
| TemplateClassParser.BalancedBodyIsRecovered | UVTD/src/TemplateClassParser.cpp:5-49 | for every balanced body the parser stops at its bracket and loses nothing but a trailing comma |
| TemplateClassParser.CounterWrapsIff | UVTD/src/TemplateClassParser.cpp:21-35 | for every text the counter wraps iff a bracket closes more than was opened before any `>` at depth one |
| TemplateClassParser.UnbalancedBodyWraps | UVTD/src/TemplateClassParser.cpp:31-35 | an instance: `A<)>` |
| MemberOffsets.ClassLayout.ParseMemberOffset | UE4SS/generated_include/MacroSetter.hpp:1-23 | what is stored for any value text, exceptions and existing entries included |
| MemberOffsets.ClassLayout.ApplyDefault | UVTD/src/MemberVarsDumper.cpp:273-296 | the default applies, offset and layout together, only to a member without an offset |
| MemberOffsets.ClassLayout.SetBitfieldMember | UVTD/src/MemberVarsWrapperGenerator.cpp:767-800 | original name, then alias, then default, for each half of a bitfield layout |
| MemberOffsets.ClassLayout.SetPlainMember | UE4SS/generated_include/MacroSetter.hpp:27-31 | original name, then alias, then default, truncated to 32 bits |
| MemberOffsets.PrintedMeans | UVTD/src/MemberVarsDumper.cpp:249-256 | what the parser makes of any printed value with up to three fields |
| MemberOffsets.StoiReadsDecimal | UE4SS/generated_include/MacroSetter.hpp:5-17 | a hand-written decimal is read after white space and a sign, and fails beyond 32 bits |
| MemberOffsets.StoiReadsHex | UE4SS/generated_include/MacroSetter.hpp:5 | the same behind `0x` or `0X`, where the prefix decides the base |
| MemberOffsets.StoiReadsOctal | UE4SS/generated_include/MacroSetter.hpp:5 | and in base eight behind `0` |
| MemberOffsets.StoiNeedsDigit | UE4SS/generated_include/MacroSetter.hpp:5-17 | without a digit nothing is read |
| MemberOffsets.RoundTripIff | UVTD/src/MemberVarsDumper.cpp:249-252 | a printed bitfield reads back iff the offset is not negative and the storage size fits a byte |
| MemberOffsets.ShortForms | UE4SS/generated_include/MacroSetter.hpp:7-21 | shorter forms give 1 for the missing fields |
| MemberOffsets.HalvesAgreeIff | UE4SS/generated_include/MacroSetter.hpp:6-20 | offset and layout come from one source iff the original does not give the offset alone while the alias gives both |
| MemberOffsets.LayoutFoundIff | UVTD/src/MemberVarsWrapperGenerator.cpp:560-562 | a bitfield getter finds its layout iff no INI value sets the offset or one of them gives the layout too |
| MemberOffsets.EmptyIsNothing | UVTD/src/MemberVarsWrapperGenerator.cpp:767-800 | leaving empty INI values out changes nothing |
| MemberOffsets.ToInt32Wraps | UE4SS/generated_include/MacroSetter.hpp:27-31 | a plain value is stored as the 32-bit number that differs from it by a multiple of 2^32 |
| ExportsFile.CollectExports | UE4SS/proxy_generator/main.cpp:349-381 | named exports up to the first bad name, then every function whose ordinal is not yet listed |
| ExportsFile.NamedComeFirst | UE4SS/proxy_generator/main.cpp:349-366 | the named exports come first, in the order of the name table, each with the ordinal one above its index |
| ExportsFile.UnnamedInOrder | UE4SS/proxy_generator/main.cpp:369-379 | the others follow in the order of the function table |
| ExportsFile.UnnamedExactly | UE4SS/proxy_generator/main.cpp:369-379 | which ordinals are listed without a name |
| ExportsFile.EveryFunctionIsListed | UE4SS/proxy_generator/main.cpp:369-379 | the ordinal of every function with an address is listed, for it or for a name that took it |
| ExportsFile.EveryFunctionHasOwnIff | UE4SS/proxy_generator/main.cpp:349-381 | every function with an address gets an entry of its own iff no named ordinal is that of a function without a name |
| ExportsFile.NothingIsLostIff | UE4SS/proxy_generator/main.cpp:349-381 | from a given base no table loses a function iff that base is one, modulo 65536 |
| ExportsFile.UnnamedAreDistinct | UE4SS/proxy_generator/main.cpp:369-379 | unnamed exports differ in ordinal and name, and from the named ordinals, for up to 65536 functions from any base |
| ExportsFile.NamedOrdinalRightIff | UE4SS/proxy_generator/main.cpp:361-371 | a collected named entry carries its function's ordinal iff the base is one |
| ExportsFile.WriteExportsFile | UE4SS/proxy_generator/main.cpp:459-466 | the text written |
| ExportsFile.ReadExportsFile | UE4SS/proxy_generator/main.cpp:385-421 | path and entries read from any text, stream failures and overflow included |
| ExportsFile.ReadsSigned | UE4SS/proxy_generator/main.cpp:404-409 | what the stream makes of any numeral: white space skipped, signs taken, beyond 65535 failed as 65535, negative ones wrapped |
| ExportsFile.ReadsNothing | UE4SS/proxy_generator/main.cpp:404-409 | without a digit the extraction fails and leaves zero |
| ExportsFile.OverflowLosesName | UE4SS/proxy_generator/main.cpp:404-416 | a line with a larger number reads as function 65535 without a name |
| ExportsFile.NoPathNoExports | UE4SS/proxy_generator/main.cpp:385-401 | nothing is read from a file whose first line does not say `Path: ` |
| ExportsFile.EntrySurvivesIff | UE4SS/proxy_generator/main.cpp:404-418 | an entry reads back iff its ordinal is not zero and its name is one word or the generated one |
| ExportsFile.FileRoundTripIff | UE4SS/proxy_generator/main.cpp:385-421 | a file reads back iff it has a path and every entry survives |
| ExportsFile.CollectedSurvive | UE4SS/proxy_generator/main.cpp:349-466 | end to end: collected exports read back unchanged |
| VTableLayout.RetrieveLayout | UE4SS/src/UE4SSProgram.cpp:2910-2921 | size and offsets of one list, first of equal names kept, wrapping |
| VTableLayout.LoadObjects | UE4SS/src/UE4SSProgram.cpp:2923-2949 | the chain to UField, each class over the sum of its bases |
| VTableLayout.LoadProperties | UE4SS/src/UE4SSProgram.cpp:2965-3016 | FProperty and its subclasses over the chain of either engine version |
| VTableLayout.BaseSumCounts | UE4SS/src/UE4SSProgram.cpp:2914-2921 | the wrapped sum is the flattened length less one slot for each empty list |
| VTableLayout.LayoutHolds | UE4SS/src/UE4SSProgram.cpp:2917-2919 | a class's map holds its names and no others, each with the offset of its first place |
| VTableLayout.StoredOffsetIff | UE4SS/src/UE4SSProgram.cpp:2910-2921 | the stored offset is eight times the flattened position iff no base list is empty |
| VTableLayout.PropertyOffsetIff | UE4SS/src/UE4SSProgram.cpp:2972-2985 | the same for the map of FProperty, over UObjectBase, UObjectBaseUtility, UObject, UField before 4.25 and over FField since |
| VTableLayout.DerivedOffsetIff | UE4SS/src/UE4SSProgram.cpp:2987-3016 | the same for the maps of its subclasses, in both |
| VTableLayout.PositionHoldsEntry | UE4SS/src/UE4SSProgram.cpp:2910-2912 | that position of the flattened vtable holds that entry |
| VTableLayout.EverySlotHasOneEntry | UE4SS/src/UE4SSProgram.cpp:2910-2912 | positions are contiguous: every slot is the position of one entry |
| VTableLayout.StoredOffsetsKeepOrder | UE4SS/src/UE4SSProgram.cpp:2910-3016 | stored offsets are injective and ordered along any chain of non-empty lists |
| NativesScan.CollectSegments | UE4SS/src/UE4SSProgram.cpp:2379-2397 | executable ranges and writable segments, in header order |
| NativesScan.IsExecutable | UE4SS/src/UE4SSProgram.cpp:2399-2404 | a pointer is executable iff some range holds it |
| NativesScan.ScanSegment | UE4SS/src/UE4SSProgram.cpp:2416-2438 | the streaming counter returns the lowest start of 64 consecutive code pointers, or knows there is none |
| NativesScan.FindNatives | UE4SS/src/UE4SSProgram.cpp:2413-2449 | the address of the first table of the first writable segment with one, found iff there is one |
| NativesScan.LocatesFirstTable | UE4SS/src/UE4SSProgram.cpp:2379-2449 | what is located, in bytes and addresses: the first aligned run of 64 little-endian pointers between 0x10000 and 0x7fffffffffff into loaded executable segments, in the first loaded writable segment that has one |
| NativesScan.FiltersLoseNothing | UE4SS/src/UE4SSProgram.cpp:2390-2415 | the two size filters hide no table |

## Left out

- Files, processes, sockets, `dlsym`, `/proc/self/maps` and the PDB reader: their results are inputs here (tables, headers, bytes, lines).
- The Unreal, Lua, GUI and Input libraries and `Ini::Parser` are not part of this model; values read from an INI by that parser are given as text or numbers.
- TypeHistory.HistoryIsLossless: classes are taken whose unified name is the name they are stored under, or is no name of the run; otherwise lookup and insertion use different keys.
- GetterCorrectness.GettersFollowTheVersions: versions are one-digit majors with two-digit minors, joined in ascending order; an inherited member gets no versioned getters, and a bitfield has one getter that reads its layout at run time.
- TypeTree.NormalizesPrinted: type trees are names and applications of names to arguments, with blanks before `>` and `*`; function types, references and names that end in a rewritten name without being it are outside the grammar.
- Sync.PendingIsBounded: counts steps, not time; the requester's body is one step and the scheduler is not modelled as fair.
- Sync memory order: the atomics are sequentially consistent, which is the default the code uses.
- CrashRecovery.Thread.Fault: signal delivery, masks and register state are not modelled; a jump into a frame that has returned is reported as stale, since its behaviour is undefined.
- EventQueue.EventLoop.RunFrame: an event that queues another one from inside a batch would lock a mutex its own thread holds, and the unlocked emptiness test may see a stale queue; both are outside the model.
- ModList.Program.ReinstallMod: mod callbacks, key binds and the pointer overload called from another thread are not modelled; ids are unbounded, so the model does not wrap after 2^64 constructions.
- MemberOffsets.ClassLayout.SetBitfieldMember: starts from a member that has no entry yet; text conversion between wide and narrow strings is the identity.
- SettingsIni.Deserialize: the typed lookups (`get_bool`, `get_int64`, `get_float`) over the parsed map are easy members.
- DiscordWebhook.CommandReadsIff: of the shell only single quotes, backslashes and blanks are modelled; operators and expansions end a word with no result.
- DiscordWebhook.EscapedReads: the reader takes no insignificant white space, fractions or surrogate pairs, none of which the writer produces; characters above 0x1f stand for themselves.
- VirtualGenerator.GenerateSource: the generated header, which has no conditionals; config files, which are inputs.
- VTableLayout.LoadProperties: the remaining classes of the file make the same call over other chains. AGameMode, whose offset sum is one operand short from 4.14 on, and UDataTable, which adds the size of UPlayer, do not follow their inheritance chain.
- ExportsFile.CollectExports: the PE headers in front of the export directory; names, ordinals and addresses are inputs. On Windows a bad name address is not checked.
- NativesScan.FindNatives: the signature patterns and the backward search for function starts, which are heuristics without a general claim.
- The layout comments, total sizes and duplicate-name guard of the member dumper: text around the modelled values.
- Getter bodies, const overloads, pointer-to-member typedefs, renamed members and the version-dispatching wrappers around the getters: text templates around the modelled choices.
- `install_mods`, whose name test never holds, the start order of `mods.txt`, flag tables, the crash dumper and the documentation scripts.
