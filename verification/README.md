# A verified model of the GPU hostcall runtime, its probes and its analysis tools

The repository lets GPU wavefronts call the CPU through a shared ring of mailbox slots, instruments
kernels with per-wave counters that are reported through that ring, recovers structured control flow
from GPU machine code, and rewrites code-object metadata and symbol tables so that all of this can be
loaded. This project models those four parts in Dafny and proves what they are for. Run
`dafny verify dfyconfig.toml` to check everything.

**A. The ring.** `Abi` is the slot and what each device wrapper stores and loads; `Host` is the
service thread's half, a function of the operations it has serviced; `Ring` is the whole protocol as a
step machine: each wave and the service thread advance one load, store or atomic at a time, in any
order, with a dispatcher that keeps at most `limit` waves resident. Tickets and turns are taken modulo
`c.m`: 0 is the ideal ring with unbounded tickets, 2^32 is the code. `RingSafety`, `RingHistory` and
`RingOrder` are the invariants every step keeps; `RingRuns` states what they mean for every schedule;
`Ring32` proves that the 32-bit ring runs in lock step with the ideal one whenever at most 2^24 waves
hold tickets, and carries slot ownership, linearizability and exactly-once service over to it;
`Overcrowd` builds a schedule on which one wave more opens a gate twice. `RingWork` measures the work a
run has left and shows that nothing deadlocks, `RingProgress` that fair schedules finish and how long a
ready request can wait. `FileLog` says what a file holds after any history of operations and how the
ids in the log read back, `HostAnswers` what each operation of a history is answered: which handle, which
bytes, how many. `RingFiles` and `RingAnswers` join the two with the ring: what every file holds once no
call is under way, and what the waves' calls return. `Service` is the service thread as one mutable object whose scan over the slot array is
proved equal to the machine's steps.

**B. Per-wave data.** `WaveId` is the flattened wave id on the device and the buffer sizing on the
host, both with the wrapping arithmetic they use; `Report` the decimal printers and a reader for what
they print; `BbCounter` the block-counter probes as a wave's program; `EndToEnd` joins it all: from
zeroed slices, whatever the interleaving on the 32-bit ring, every wave's file exists once and reads
back as that wave's counts. `MsgPack` is the metadata reader and `KernargNote` the offline tool that
appends buffer arguments to a metadata note; `PackShortest` shows that no legal encoding of the document
is shorter than the tool's, and `NoteSections` that the note is found among any others. The host's byte scans look for text in the whole section:
`ByteScan` is the count of arguments, `OffsetScan` the offset of the hidden argument, and both are
compared with a full parse; `ExplicitArgs` is what the count means, `StrayKeys` when a key's bytes stand
nowhere but at a key, and `GrownScan` that the tool's own output can be scanned and gives the old count.

**C. Control flow.** `Rpo` is the reverse post-order with its explicit work stack, `ReachingDef` the
backward search for definitions, `Regions` the region-tree builder as a mutable object. `RegionMeaning`
is the guard the analysis shows for each instruction of a structured function, `ExecMask` what the
instructions do to EXEC in each lane, `MaskWitness` the lanes that refute a wrong guard, and `GuardSound`
the theorem that the guards describe EXEC exactly when the code is clear. `RegionFields` is what a region
records besides its guard.

**D. Symbol tables and register usage.** `GnuHash` and `SysvHash` (with `SysvRound`) are the hash
tables, by definition, by both ways of computing them, and by lookup; `GnuHashMeaning` gives the hash, the
Bloom word and the symbols' order in closed form. `RegUsage` is the memoised evaluator of assembler
expressions, proved against what an expression denotes.

## What turned out false

- The recovered guards do not describe EXEC for all structured code. They do, in every lane, exactly
  when the code is `Clear` (`GuardSound.GuardsMatchExec`): no listed instruction comes before a narrowing
  of its own arm, none comes after a narrowing whose condition the analysis drops (in an else arm or
  outside every branch), and none comes after a branch that loses lanes for good. Failing functions:
  `CallThenCutWrong`, `CutInElseWrong`, `CallAfterLossWrong`.
- A close does not always restore EXEC: an else made by a flip overwrites the save register, so a
  narrowing in it loses lanes. It does in every lane exactly when the branch is not `Lossy`
  (`GuardSound.CloseRestores`).
- The two-instruction else gets the opposite guard (`GuardSound.TwoStepElse`).
- The irregular flag a reroute sets is always overwritten by the close (`GuardSound.RerouteFlagLost`).
- The primary file holds the ids only if the first file opened successfully was opened for writing
  (`RingFiles.PrimaryHoldsIds` is an if-and-only-if; `FileLog.ReadPrimaryLoses` is the failing history).
- The 32-bit gate admits one wave at a time only up to 2^24 ticket holders; with one more resident wave a
  schedule reaches a state with two waves past the gate of one slot (`Overcrowd.OneHolderTooMany`).
- The device's wave id is exact in every thread only if the launch has at most 2^32 waves, a block at
  most 2^32 threads and, unless there is one block, fewer than 2^32 - 63: `WaveId.DeviceExactIff`, with
  two blocks that fail in `SecondBlockLost`. Device and host agree on the number of waves per block if and
  only if the block's thread count plus 63 fits in 32 bits (`WaveId.WavesPerBlockAgree`).
- The backward search does not see a definition at or after the use in the use's own block that comes
  round a loop. `ReachingDef.FindDef` says exactly which definitions it finds; `LoopDefinitionMissed`
  is an example of the others.
- The metadata reader returns a negative number for every 64-bit unsigned one of 2^63 or more
  (`MsgPack.HugeReadsNegative`), and the document itself exactly when it has none (`MsgPack.ReadsMeaning`).
- The byte scan runs on into the next kernel's arguments when the first kernel has no hidden argument;
  `ExplicitArgs.ScanStaysIff` says exactly when it does not, `GrownScan.FirstKernelMiscounted` is a note
  it miscounts.
- `hc_write` never sets the handle field: it reaches the file its caller has in mind exactly when the
  slot's previous occupant left that handle (`Abi.HcWriteTargetsLeftover`).

## Model

| member | source | states |
|---|---|---|
| Election.ElectsOne | runtime/device/hostcall_lib.cpp:44-49 | whatever lanes are active, exactly one of them, the lowest, makes the call |
| Abi.MarshalRoundTrip | runtime/device/hostcall_lib.cpp:88-222 | over any leftovers in the slot, a wrapper's stores make the host decode exactly the call that was made, with the documented caps |
| Abi.ReplyRoundTrip | runtime/device/hostcall_lib.cpp:158-174 | the reply a wrapper loads is its own operation's result, whatever else is in the slot |
| Abi.HcWriteTargetsLeftover | runtime/device/hostcall_lib.cpp:196-208 | `hc_write` writes to the intended handle if and only if the slot already held it |
| Host.ReplayConsistent | runtime/host/hostcall_service.cpp:66-79 | after any history the file map and the open streams describe each other, and the primary is an open stream |
| Host.OpenedOnce | runtime/host/hostcall_service.cpp:16-28 | a name keeps its handle and a stream its contents as a prefix however the history goes on: no later open truncates it |
| Host.Conservation | runtime/host/hostcall_service.cpp:29-43 | a writable stream holds what it held plus exactly the payloads sent to its handle, whole and in history order |
| HostAnswers.OpenAnswers | runtime/host/hostcall_service.cpp:16-28 | an open that answers a handle answers the one of the file it names: open after it, with that name, and in the file map; it reports success exactly with a handle |
| HostAnswers.SameNameSameHandle | runtime/host/hostcall_service.cpp:18-27 | two successful opens of a history answer the same handle if and only if they name the same file |
| HostAnswers.OpenSucceedsIff | runtime/host/hostcall_service.cpp:18-27 | an open succeeds if and only if its file is open already or the `fopen` it makes succeeds, so a failed one is tried again |
| HostAnswers.ReadsInOrder | runtime/host/hostcall_service.cpp:44-47 | the reads of a file opened for reading return, put together in history order, the beginning of what it held: all they asked for, each at most 512 bytes, or the whole file |
| HostAnswers.ReadAnswers | runtime/host/hostcall_service.cpp:44-47 | a read answers the number of bytes it returns, or -1 if its handle is not open |
| HostAnswers.WriteAnswers | runtime/host/hostcall_service.cpp:29-43 | a write answers by how many bytes its file has grown; without an open file or a record to read it answers -1 and changes none |
| HostAnswers.OthersAnswer | runtime/host/hostcall_service.cpp:48-63 | an id and a close are answered with success and an unknown operation with failure, and only an id touches a file |
| HostAnswers.CountersCount | runtime/host/hostcall_service.cpp:26-58 | the three counters count the opens, the writes with the ids, and the closes |
| HostAnswers.ModesMean | runtime/host/hostcall_service.cpp:20 | a file opened with "w" begins empty and with "a" with what was there, and both take what is sent to them; any other is only read |
| FileLog.FileKept | runtime/host/hostcall_service.cpp:16-43 | a file holds what it held when it was opened, then everything sent to its handle since, each payload whole and in history order; opened for reading, it holds what it held |
| FileLog.PrimaryKept | runtime/host/hostcall_service.cpp:18-25 | the primary is what the first successful open opened, and it keeps everything posted to it since if and only if that open was for writing or nothing was posted |
| FileLog.IdsPosted | runtime/host/hostcall_service.cpp:55-59 | among the posts, each id of the history is one line, no more and no less, in order |
| FileLog.IdsReadBack | runtime/host/hostcall_service.cpp:55-59 | read line by line, a primary opened for writing gives back exactly the ids written since, each once and in order, after those it began with |
| FileLog.ReadPrimaryLoses | runtime/host/hostcall_service.cpp:18-25 | when the first file is opened for reading, an id is written and the file stays as it was |
| RingFiles.FilesConserved | runtime/host/hostcall_service.cpp:16-47 | on the 32-bit ring, once no call is under way: every file is its contents at its opening followed by an interleaving of everything the waves sent to its handle since, each wave's share in its program order |
| RingFiles.PrimaryHoldsIds | runtime/host/hostcall_service.cpp:55-59 | on the 32-bit ring, if every wave opens a file successfully before its first id: every id is one post to the primary, and the primary holds the posts if and only if the first successful open was for writing |
| RingFiles.PrimaryReadsBack | runtime/host/hostcall_service.cpp:55-59 | and if it was, and the waves write the primary nothing else but whole lines that are not ids, reading the file's bytes gives every id ever written exactly once, in history order |
| RingAnswers.EntryAsks | runtime/device/hostcall_lib.cpp:88-222 | every operation of a run's history is the one its wave's request asks for, with the wrappers' caps |
| RingAnswers.HandlesAgree | runtime/host/hostcall_service.cpp:18-27 | over the 32-bit ring, a handle an open has returned to a wave is the one of the file it named, and two opens, of one wave or of two, return the same handle if and only if they name the same file |
| RingAnswers.ReadsDeliver | runtime/host/hostcall_service.cpp:44-47 | over the 32-bit ring, the bytes handed to all the waves that read from a file are, in history order, the beginning of what it held: all they asked for, or all of it |
| RingAnswers.WriteReplies | runtime/host/hostcall_service.cpp:29-43 | over the 32-bit ring, a write's reply is by how many bytes the file grew, or -1 |
| RingAnswers.AskedIdsReadBack | runtime/host/hostcall_service.cpp:55-59 | the ids read back from the primary are the ones the waves passed to their calls, each once, in history order |
| Ring.StepResident | runtime/hostcalls.h:5-12 | no step lets more waves be resident than the limit |
| RingSafety.GateExclusive | runtime/device/hostcall_lib.cpp:56-62 | two different waves past their gates are past the gates of different slots |
| RingSafety.StepSafe | runtime/device/hostcall_lib.cpp:56-85 | every step of every actor keeps the ownership invariant of tickets, slots and status |
| RingHistory.StepHistory | runtime/host/hostcall_service.cpp:66-81 | every step keeps: the log is a legal sequential execution of the host, slot contents match the wave's call, and each wave's calls are its part of the log |
| RingOrder.StepOrdered | runtime/device/hostcall_lib.cpp:56-85 | every step keeps: a ticket is logged exactly when served, a slot's tickets in increasing order |
| RingRuns.Reachable | runtime/hostcalls.h:35-38 | the invariants hold in every reachable state of every interleaving |
| RingRuns.Linearizable | runtime/host/hostcall_service.cpp:66-81 | every run computes a sequential history in which each operation is the one its own wave asked for and each wave's calls appear in its order with the replies it read |
| Ring32.TicketSpread | runtime/device/hostcall_lib.cpp:56-60 | a ticket is ahead of its slot's turn by less than 256 times the number of ticket holders |
| Ring32.StepWraps | runtime/device/hostcall_lib.cpp:56-85 | while the gate tests agree, a 32-bit step is the wrapped image of the ideal step |
| Ring32.Refines | runtime/device/hostcall_lib.cpp:56-85 | with at most 2^24 holders at any time, the 32-bit run is the wrapped image of the ideal run, across any number of wraparounds |
| Ring32.LimitGivesFewHolders | runtime/hostcalls.h:5-12 | a residency limit of 2^24 bounds the holders |
| Ring32.Linearizable32 | runtime/host/hostcall_service.cpp:66-81 | the 32-bit ring computes a sequential history with every wave's calls in order, for any number of waves and any schedule |
| Ring32.SlotDiscipline32 | runtime/hostcalls.h:35-38 | at every moment of every 32-bit run a slot has at most one owner, which drew the ticket its turn names; status is nonzero only while that owner waits; the service thread reads or writes a slot only then; nobody else touches it |
| Ring32.ExactlyOnce32 | runtime/host/hostcall_service.cpp:72-78 | on the 32-bit ring every draw is answered exactly once, under the wave that made it, a slot's draws in order, and an unanswered draw is the one call its wave is still in |
| Overcrowd.OneHolderTooMany | runtime/device/hostcall_lib.cpp:56-62 | with 2^24 + 1 resident waves a schedule of the 32-bit ring reaches a state with two waves past the gate of slot 0 |
| RingWork.StepWorks | runtime/hostcalls.h:5-12 | every step lowers the work left or changes nothing but the service thread's cursor |
| RingWork.NoDeadlock | runtime/hostcalls.h:5-12 | while a wave is unfinished some wave or the dispatcher can move, or a request is ready, at any wave count and any limit of at least one |
| RingProgress.Completes | runtime/hostcalls.h:5-12 | enough fair rounds finish every wave from any reachable state of the 32-bit ring |
| RingProgress.BoundedWait32 | runtime/host/hostcall_service.cpp:72-79 | from any reachable state of the 32-bit ring, while a request is ready at most 255 others are serviced and fewer than 768 service steps are taken |
| Service.HostcallService.constructor | runtime/host/hostcall_hooks.h:189-190 | zeroed slots with slot i's turn set to i, and an empty host |
| Service.HostcallService.Open | runtime/host/hostcall_service.cpp:16-28 | the open case is the host's operation on the abstract state |
| Service.HostcallService.Write | runtime/host/hostcall_service.cpp:29-35 | a write appends the bytes to the stream, and nothing else changes |
| Service.HostcallService.Read | runtime/host/hostcall_service.cpp:44-47 | a read returns the next bytes of the stream and moves its position |
| Service.HostcallService.ServiceSlot | runtime/host/hostcall_service.cpp:13-64 | the switch performs exactly the operation decoded from the slot and writes back only its result |
| Service.HostcallService.Visit | runtime/host/hostcall_service.cpp:73-78 | a ready slot is serviced and marked done, any other is left alone |
| Service.HostcallService.ScanPass | runtime/host/hostcall_service.cpp:71-80 | a pass over the array does exactly what the machine's service thread does between two visits to slot 0: every ready slot answered, no other touched |
| WaveId.WaveBound | instrumentation/user_lib/user_probe.cpp:71-86 | every wave id is below the number of waves |
| WaveId.WaveInjective | instrumentation/user_lib/user_probe.cpp:71-86 | two threads have the same wave id if and only if they are in the same 64-thread chunk of the same block |
| WaveId.WaveSurjective | instrumentation/user_lib/user_probe.cpp:71-86 | every id below the number of waves is some wave's |
| WaveId.DeviceExactIff | instrumentation/user_lib/user_probe.cpp:80-86 | the wrapping 32-bit arithmetic gives every thread of a launch its exact id if and only if there are at most 2^32 waves, a block has at most 2^32 threads and, unless there is one block, fewer than 2^32 - 63 |
| WaveId.SecondBlockLost | instrumentation/user_lib/user_probe.cpp:80-86 | two blocks of just under 2^32 threads: the second block's first wave gets id 0 instead of 2^26 |
| WaveId.WavesPerBlockAgree | instrumentation/user_lib/user_probe.cpp:82 | device and exact waves per block agree if and only if the thread count plus 63 fits in 32 bits |
| WaveId.HostExact | runtime/host/hostcall_hooks.h:340-342 | the host's 64-bit wave count and buffer size are exact |
| WaveId.SlicesTile | runtime/host/hostcall_hooks.h:340-342 | every byte of the buffer lies in the slice of exactly one wave |
| Decimal.DecRoundTrip | instrumentation/user_lib/user_probe.cpp:63-69 | a printed number reads back as itself |
| Decimal.SignedDecRoundTrip | runtime/host/hostcall_service.cpp:56 | so does a signed one |
| Report.PutStr | instrumentation/user_lib/user_probe.cpp:62 | exactly the string's bytes are written at the position, nothing else |
| Report.Digits | instrumentation/user_lib/user_probe.cpp:63-66 | the temporary array holds the decimal digits, least significant first |
| Report.PutUint | instrumentation/user_lib/user_probe.cpp:63-69 | exactly the decimal digits are written, most significant first |
| Report.FormatName | instrumentation/user_lib/user_probe.cpp:206-207 | the name buffer starts with the wave's file name and its terminator |
| Report.FormatReport | instrumentation/user_lib/user_probe.cpp:209-214 | the report buffer starts with one line per block |
| Report.ReportRoundTrip | instrumentation/user_lib/user_probe.cpp:209-214 | a report parses back to exactly the counts it was printed from |
| Report.FileNameReads | instrumentation/user_lib/user_probe.cpp:207 | a file name gives its wave id back |
| Report.FileNameInjective | instrumentation/user_lib/user_probe.cpp:207 | different wave ids have different file names |
| BbCounter.IncProgress | instrumentation/user_lib/user_probe.cpp:181-187 | an increment adds one, modulo 2^32, to its own counter and to no other |
| BbCounter.OpenMeans | instrumentation/user_lib/user_probe.cpp:206-208 | the open reads the wave's file name out of its slice |
| BbCounter.WriteMeans | instrumentation/user_lib/user_probe.cpp:215 | the record the write names is the wave's report, inside its own slice |
| BbCounter.LocalProgress | instrumentation/user_lib/user_probe.cpp:181-216 | every local action keeps the wave on its program |
| BbCounter.CallProgress | instrumentation/user_lib/user_probe.cpp:208-215 | so does every hostcall |
| EndToEnd.FilesBuilt | runtime/host/hostcall_service.cpp:13-64 | after each entry of the history the host holds exactly the files of the waves that got that far, with their contents |
| EndToEnd.EveryWaveReports | instrumentation/user_lib/user_probe.cpp:181-216 | on the 32-bit ring, under every interleaving: once all waves have finished there are exactly as many files as waves, named by wave id, and each parses back to its wave's counts modulo 2^32 |
| EndToEnd.EveryWaveGetsToReport | runtime/hostcalls.h:5-12 | and fair schedules get there |
| Rpo.PushTargets | analysis/cfrecovery/structure.C:623-627 | the unseen intraprocedural successors are pushed, in edge order |
| Rpo.PushedInOrder | analysis/cfrecovery/structure.C:599-627 | they are the targets of exactly the edges, in edge order, that are no call, return or handler and lead to an unseen block of the function |
| Rpo.ReversePostOrder | analysis/cfrecovery/structure.C:609-632 | lists exactly the reachable blocks, each once, entry first; an edge goes to a later block or to one that reaches its source; every other block comes after a predecessor |
| Rpo.Topological | analysis/cfrecovery/structure.C:605-608 | on an acyclic graph the list is a topological order |
| ReachingDef.ScanBack | analysis/cfrecovery/structure.C:400-404 | the last defining instruction below the address, or none |
| ReachingDef.ReachingDefInsn | analysis/cfrecovery/structure.C:396-409 | a found definition reaches the use by a clean path; otherwise every newly visited block has no definition and all its predecessors visited |
| ReachingDef.FindDef | analysis/cfrecovery/structure.C:394-409 | finds a definition if and only if one reaches the use without coming round through the use's block; what it finds lies outside `stayOutOf` |
| ReachingDef.LoopDefinitionMissed | analysis/cfrecovery/structure.C:402 | a loop whose only definition comes after the use reaches it and is not found |
| Regions.StructureAnalysis.CombineConditions | analysis/cfrecovery/structure.C:684-690 | every region of the subtree ends up with the conjunction of the guards from the root down |
| Regions.StructureAnalysis.constructor | analysis/cfrecovery/structure.C:634-673 | the tree is that of the stack machine over the instructions, with every effective guard correct |
| RegionMeaning.AnalyzeStmt | analysis/cfrecovery/structure.C:654-668 | for any statement of structured code, whatever its arms hold: each listed instruction stands in a region whose effective guard is the one the text shows, whatever later instructions do |
| RegionMeaning.BodiesListed | analysis/cfrecovery/structure.C:664-665 | a region's body lists exactly the calls and selects that ran with it on top, in order |
| ExecMask.StmtFaithful | analysis/cfrecovery/structure.C:219-255 | in one lane and from entry to close, in clear code, the guard at each listed instruction describes EXEC there |
| GuardSound.GuardsMatchExec | analysis/cfrecovery/structure.C:634-690 | for every structured function: at every listed instruction the effective guard describes EXEC in all lanes if and only if the code is clear |
| GuardSound.CloseRestores | analysis/cfrecovery/structure.C:1038-1043 | a close restores EXEC in every lane if and only if the branch has no narrowing in an else made by a flip, at any depth of such elses |
| GuardSound.LeadingCutsClear | analysis/cfrecovery/structure.C:1045-1052 | code in which only first arms narrow, and before anything listed in them, is clear and every close restores EXEC, whatever the nesting |
| GuardSound.CallThenCutWrong | analysis/cfrecovery/structure.C:1045-1052 | a call before the narrowing of its arm is shown under both conditions and runs under one |
| GuardSound.CutInElseWrong | analysis/cfrecovery/structure.C:677-680 | a narrowing at the head of an else arm is missing from the guard |
| GuardSound.CallAfterLossWrong | analysis/cfrecovery/structure.C:1009-1020 | a call after a branch whose else, made by a flip, narrows is not run by the lanes the guard shows |
| GuardSound.TwoStepElse | analysis/cfrecovery/structure.C:1012-1020 | the two-instruction else gets the opposite of the lanes that run |
| GuardSound.RerouteFlagLost | analysis/cfrecovery/structure.C:1026-1043 | in every function, an else or rerouted region is regular from its close on, whatever a reroute marked it as and whatever follows |
| RegionFields.BranchRecorded | analysis/cfrecovery/structure.C:999-1043 | whatever stands before and after a branch: its region begins at the open and expects the lanes back where it said, and without an else it is regular if and only if no address was given or the close comes no earlier |
| RegionFields.RerouteRecorded | analysis/cfrecovery/structure.C:1026-1034 | a rerouted region runs under its parent's guard and is marked irregular |
| RegionFields.RerouteMisread | analysis/cfrecovery/structure.C:1026-1034 | a reroute right after an open sends on the lanes that fail the condition, under a guard that holds for all |
| RegionFields.RootStays | analysis/cfrecovery/structure.C:1012-1052 | with the function's own region on top nothing can end, replace or narrow it |
| MsgPack.ParseRoundTrip | analysis/cfrecovery/structure.C:45-88 | the reader inverts every legal encoding, whatever bytes follow |
| MsgPack.ParseAccepts | analysis/cfrecovery/structure.C:45-88 | whatever it accepts is a legal encoding of the value it returns |
| MsgPack.ReadsMeaning | analysis/cfrecovery/structure.C:65 | its value is the document if and only if no unsigned number in it is 2^63 or more |
| MsgPack.HugeReadsNegative | analysis/cfrecovery/structure.C:65 | every such number comes back as itself minus 2^64 |
| MsgPack.MpHead | analysis/cfrecovery/structure.C:45-87 | the switch on the first byte |
| MsgPack.MpParse | analysis/cfrecovery/structure.C:45-88 | the recursive reader over a buffer computes the parse |
| MsgPack.MpParseMany | analysis/cfrecovery/structure.C:52-57 | and so do its loops over items |
| KernargNote.PackRoundTrip | tools/expand_args.py:65 | the tool's encoding is legal and reads back as the document |
| PackShortest.PackIsShortest | tools/expand_args.py:65 | no legal encoding of the document has fewer bytes |
| KernargNote.GetSet | analysis/cfrecovery/structure.C:90-94 | after an assignment a lookup of that key gives the value and of any other what it gave before |
| KernargNote.GetFirst | analysis/cfrecovery/structure.C:90-94 | a lookup gives what stands under the first entry of the key, and nothing if and only if there is none |
| KernargNote.ProtoIsFirst | tools/expand_args.py:43 | the prototype is the first buffer argument, and an argument that is no map before it fails the search |
| KernargNote.AppendArgs | tools/expand_args.py:48-55 | the loop appends the arguments and grows the size |
| KernargNote.ExtraIs | tools/expand_args.py:49-53 | an extra argument has its own offset, size and name and is otherwise its prototype |
| KernargNote.ExtrasLayOut | tools/expand_args.py:48-55 | the offsets are 8-aligned, past the old segment, disjoint, and end at the new size |
| KernargNote.GrowKernel | tools/expand_args.py:36-61 | one kernel: grown, left alone, or refused |
| KernargNote.GrowRootGrows | tools/expand_args.py:36-61 | exactly the kernels asked for, by name or all, that have a buffer argument grow, and only in their arguments and sizes; a document without kernels stays as it is |
| KernargNote.GrowDoc | tools/expand_args.py:36-61 | the loop over kernels |
| KernargNote.ScanNotes | analysis/cfrecovery/structure.C:748-759 | finds the first metadata note's descriptor |
| KernargNote.FrameFound | tools/expand_args.py:66-74 | a framed metadata note is found again |
| NoteSections.FoundAmongNotes | analysis/cfrecovery/structure.C:748-759 | whatever other notes come first and whatever follows, the scan finds the metadata note's descriptor; among other notes alone it finds none |
| NoteSections.HoldsAmongNotes | analysis/cfrecovery/structure.C:748-764 | so a document in the metadata note is read back wherever the note stands |
| KernargNote.RewriteNote | tools/expand_args.py:26-74 | for any metadata note: refused exactly when the document does not parse, is not as the tool expects, or no longer fits; otherwise the note returned holds the document grown, whatever follows it |
| ByteScan.CountExplicitArgs | runtime/host/co_stride.h:156-172 | the scan loop over one note section |
| ByteScan.ScanKeyed | runtime/host/co_stride.h:156-172 | on any section, given where its keys stand: the short strings under them are counted up to the first hidden one, other values are passed over, and a string the section cuts off ends the count |
| ByteScan.ScanCounts | runtime/host/co_stride.h:156-172 | on a section holding an encoded document: the kinds written as short strings before the first hidden one, and nothing only if a full parse finds no key |
| ByteScan.ScanAgrees | runtime/host/co_stride.h:127-175 | so when every kind is a short string the scan returns what a full parse would: the value kinds before the first hidden one |
| ByteScan.MpUintAgrees | runtime/host/co_stride.h:68-79 | the in-place number reader agrees with the full one on exactly the unsigned formats of up to 32 bits |
| OffsetScan.MemFind | runtime/host/co_stride.h:81-87 | the first occurrence, or none |
| OffsetScan.KernargOffset | runtime/host/co_stride.h:115-122 | the number behind the last offset key before the first occurrence of the kind |
| OffsetScan.OffsetAgrees | runtime/host/co_stride.h:107-122 | when that occurrence is an argument's value kind, the number is the offset a full parse finds in that argument, if it is an unsigned number of up to 32 bits, and is reported as unreadable otherwise |
| ExplicitArgs.ScanCountsExplicit | runtime/host/co_stride.h:127-175 | with the explicit arguments before at least one hidden one the scan returns their number |
| ExplicitArgs.ScanStaysIff | runtime/host/co_stride.h:130-132 | it stays with the first kernel if and only if that has a hidden argument or a hidden one or nothing follows |
| StrayKeys.OnlyInDocument | runtime/host/co_stride.h:142-160 | in a section that holds a proper document the key's bytes stand only where the document has the key |
| GrownScan.GrowRootProper | tools/expand_args.py:36-61 | growing a proper document leaves it proper |
| GrownScan.FramedScannable | tools/expand_args.py:65-74 | the packed and framed document can be scanned |
| GrownScan.ScanUnchanged | runtime/host/co_stride.h:127-175 | the scan of the note the tool returns, whatever follows it, gives the answer it gave before the metadata had grown |
| GrownScan.FirstKernelMiscounted | runtime/host/co_stride.h:130-132 | two kernels of one argument each, none hidden: the scan answers 2 for the first |
| ExplicitArgs.BufferIndex | runtime/host/hostcall_hooks.h:311-328 | the index the launch hook appends at is the explicit position of the appended descriptor |
| GnuHash.GnuHash | tools/add_object_aliases.py:68-73 | the loop computes the hash |
| GnuHashMeaning.HashForm | tools/add_object_aliases.py:68-73 | which is (5381 * 33^n + the sum of s[i] * 33^(n - 1 - i)) modulo 2^32 for a name of n bytes |
| GnuHashMeaning.BloomIs | tools/add_object_aliases.py:387-388 | a Bloom bit is set if and only if some hash has its number in the low six bits, before or after the shift |
| GnuHashMeaning.OrderedIs | tools/add_object_aliases.py:366-374 | the new order is the locals, the undefined globals and the defined ones by bucket, the first two as they stood |
| GnuHash.SortedIs | tools/add_object_aliases.py:373 | the stable sort orders by bucket, permutes, and keeps each bucket's order |
| GnuHash.OrderedPermutes | tools/add_object_aliases.py:366-374 | the reordering is a permutation |
| GnuHash.BuildGnuHash | archive/device_lib/compute_hashes.py:44-82 | the quadratic form computes the table |
| GnuHash.Regenerate | tools/add_object_aliases.py:379-396 | the linear form, which relies on the order, computes the same table |
| GnuHash.TableUnique | tools/add_object_aliases.py:384-401 | the table's definition determines it, so the two forms agree |
| GnuHash.RegenGnuHash | tools/add_object_aliases.py:358-402 | the reordered symbols and a table that describes them |
| GnuHash.Lookup | tools/add_object_aliases.py:358-402 | the standard lookup finds a name if and only if it is a defined global, and stays inside the table |
| GnuHash.SymbolCount | runtime/host/audit.cpp:65-76 | the count derived from the table is the full one whenever a symbol is hashed |
| GnuHash.ElfDynsym | runtime/host/audit.cpp:60-84 | finds the first symbol of the name that has an address, if and only if there is one and a count |
| SysvHash.Hash | tools/add_object_aliases.py:56-65 | the hash stays below 2^28 |
| SysvHash.ElfHash | tools/add_object_aliases.py:56-65 | the loop computes it |
| SysvHash.HashNext | tools/add_object_aliases.py:56-65 | the empty name hashes to 0, and each further character takes one more round |
| SysvRound.RoundIs | tools/add_object_aliases.py:60-64 | a round multiplies by 16, adds the character, and folds the top nibble by exclusive or into bits 4 to 7 |
| SysvHash.Build | archive/device_lib/compute_hashes.py:26-42 | buckets start at the last symbol of their hash, each chain entry is the one before |
| SysvHash.RegenSysvHash | tools/add_object_aliases.py:405-424 | the same over the final dynsym, unnamed symbols skipped |
| SysvHash.ChainFalls | tools/add_object_aliases.py:415-421 | chains strictly decrease |
| SysvHash.BucketVisits | tools/add_object_aliases.py:415-421 | walking a bucket visits exactly the symbols that hash to it, each once |
| SysvHash.Lookup | tools/add_object_aliases.py:405-424 | the lookup finds a name if and only if it is present |
| RegUsage.Evaluator.constructor | tools/add_object_aliases.py:197 | starts with nothing remembered |
| RegUsage.Evaluator.Ev | tools/add_object_aliases.py:206-223 | returns the symbol's value or proves it has none, in whatever state earlier queries left the memo |
| RegUsage.Evaluator.Query | tools/add_object_aliases.py:182-225 | a value if and only if the un-memoised meaning has one, and that one |
| RegUsage.Collect | tools/add_object_aliases.py:228-257 | in any order of definitions, exactly the usage symbols that have a value are collected, with it |
| RegUsage.EvalIs | tools/add_object_aliases.py:200-222 | evaluation finds the value an expression denotes: a maximum is one of the arguments and at least all of them, an "or" has just the bits of some; there is one if and only if every reference has a value and no maximum or minimum is of nothing |
| RegUsage.FoldIs | tools/add_object_aliases.py:200-203 | max, min, or, and of any number of arguments are what they are called |
| RegUsage.RefsNeeded | tools/add_object_aliases.py:215 | the references collected are just the ones evaluation needs |
| RegUsage.ValueEquation | tools/add_object_aliases.py:182-223 | a symbol has a value if and only if it is defined, everything it refers to has one, and its expression denotes that value with theirs |
| RegUsage.ValueUnique | tools/add_object_aliases.py:206-223 | at most one value |
| RegUsage.CycleMissing | tools/add_object_aliases.py:208-213 | a symbol on a cycle has none |
| RegUsage.BitwiseBits | tools/add_object_aliases.py:200-203 | the bitwise functions work bit by bit on integers of any sign and size |

## Left out

- Every modelled load, store and atomic is one sequentially consistent step: caches, fences, weak memory and the scalar-cache writebacks are not modelled.
- A wave that holds a ticket stays resident until it releases it; the dispatcher retires only finished waves.
- A request's arguments are read when its ticket is drawn. A record passed by address is covered when it lies in the calling wave's own slice; other records are only bounded in size.
- The file system: short writes, full disks, "+" modes, two names for one file, and handles that no open returned (treated as null). A failed open leaves the name to be tried again.
- `hc_close` and the flushes have no effect on contents; teardown, which closes all files, is not modelled.
- A size outside the slot's own buffer has no defined meaning in the source and is read as a bad request; negative sizes are not modelled.
- Launching, kernel arguments on the device, symbol lookup in the code object and all HSA, HIP, ELF-loader and Dyninst calls. Which blocks a wave enters, the layout of its slice and the answers of `fopen` are parameters.
- The probes other than the block counter, and the launchers that zero the slices (a zeroed slice is an assumption of the end-to-end theorem).
- EndToEnd.EveryWaveReports: assumes that every `fopen` succeeds, that blocks have fewer than 2^32 - 63 threads and the launch at most 2^32 waves.
- Guards are terms, not text: the analysis joins them with " && " and writes "!(...)". Recovering a condition from a compare, value provenance, loop recovery and dispatch labels are not modelled; an atom stands for whatever was recovered at an instruction.
- GuardSound.GuardsMatchExec: is about structured code: arms are any statements, with narrowings anywhere, and a branch has at most one else, of one instruction; save registers are not reused inside their branch, and different instructions test different conditions. Reroutes and the two-instruction else are shown to be misread instead; a close by `s_mov` to EXEC is not modelled.
- The post-dominator recorded at an open is a parameter; `regionOf`, waterfall labels and the printer are left out.
- The symbol or name variants of the reaching-definition search repeat the modelled one.
- KernargNote.RewriteNote: the Python reader is modelled by the same parse, which differs only on unsigned numbers of 2^63 or more; keys that occur twice in a map, strings that are not UTF-8 and number-like strings in the size field are not modelled.
- KernargNote.FindDesc: a descriptor that claims to go past the end of the section is cut off there; the source reads on.
- ByteScan.CountExplicitArgs: one note section; the walk over the ELF section table, shared by all readers of the file, is not modelled.
- OffsetScan.KernargOffset: the same.
- OffsetScan.OffsetAgrees: the argument's map is as the compiler writes it, its offset before its value kind; when the kind's text first occurs elsewhere the number is whatever stands there.
- NoteSections.FoundAmongNotes: the notes' sizes, rounded up to four, fit 32 bits; a size that wraps around moves the scan back to where its 32-bit rounding says.
- GrownScan.ScanUnchanged: the document's other strings must not contain the key's text, its numbers must not be negative, and what stands before and after the document in the section must not bring the key with it (`StrayKeys.Proper`, `GrownScan.Quiet`).
- Service.HostcallService.ScanPass: the waves stand still during the pass; between the visits they may move, which `Ring` covers one step at a time.
- RingAnswers.EntryAsks: of a write by address only the handle is compared; its record is covered by `BbCounter.WriteMeans` when it lies in the wave's own slice.
- RingFiles.FilesConserved: a wave's share is stated for waves whose records, passed by address, lie in their own slices; the contents as a whole are stated for all.
- RingFiles.PrimaryReadsBack: a file that does not end in a whole line, or a wave that writes part of a line to the primary, can change how the next id reads.
- The 64-bit Bloom word is the set of its bits.
- GnuHash.RegenGnuHash: a document without a GNU hash section, where only the order is changed, is not modelled separately.
- The audit library's address relocation; its symbols are taken with their values.
- SysvHash.ElfHash: the loop body is one expression on 32-bit words.
- Regular expressions and Python's `eval`: a definition is an expression tree with numbers, references, max, min, or, and, sums, differences and products.
- `pw_nargs`'s cache, environment variables and logging.
