# A verified model of the VitaDebugger stub

VitaDebugger is a GDB stub that runs inside the process it debugs on a PlayStation Vita. This
project models its hard core in Dafny 4.11 and proves properties of it over every input, every
failure pattern and every interleaving. `dafny verify dfyconfig.toml` checks the whole project.

| files | what they model | main result |
|---|---|---|
| `PatchState`, `CodePatch` | breakpoint slots, memory transactions and the live `M` write over memory that fails at will | the saved originals always lead back to the program image; a live write is all or nothing, and all of it when the target obeys |
| `StopCleanup` | the paths that release the all-stop or resume the target | no release over code that is still patched; no resume with anything in doubt from a session that starts clean |
| `LeaseProtocol` | controllers and the lease keeper sharing a stop session | under every interleaving each operation does to the session what it would do alone |
| `ConsoleQueue`, `ConsoleProtocol`, `ConsoleSafety`, `ConsoleAccounts`, `ConsoleProgress` | the console ring, its sessions, producers and pump | what the debugger receives is a gap-free prefix, and everything when the pump is left alone; every byte and record is accounted for |
| `RspFrame`, `RspReceive` | framing, the receive loop and its growing buffer | packets and refusals depend on the byte stream alone |
| `VCont` (with `ResumePackets`) | `vCont` reduction, resume packets | exact acceptance; the in-place status query |
| `Hex`, `Registers` (with `ConsoleFrames`) | hex, register packets, console frames | printers and parsers undo each other |
| `ArmBits`, `ArmStep`, `ArmAlu`, `ArmLoads`, `ItBlocks`, `ExclusiveStep` | A32 and Thumb step planning (ARM Architecture Reference Manual, ARMv7-A/R, DDI 0406C) | decoders invert the encoders; walks and scans are exact, for every word |
| `ExceptionAdmission`, `AdmissionProgress` | exception guard, protocol gate, state lock, teardown | at most one primary callback; closed and idle is final; everything taken is given back |
| `DebugNet`, `DebugNetProgress` | writer gate, queue, sender thread and stop | a normal stop drains, and a quiet sender's stop comes to an end; no lost wake-up; no use after free |

Two styles are used. State that the source updates in place by loops and methods is a class or a
method with loops, proved against a specification function or an explicit property. Code whose point
is how threads interleave is a state machine: every atomic access is one step, the environment
chooses every failure, and an invariant is carried along whole runs.

What must happen is stated beside what must not. The classes carry ghost flags that remember whether
the target (`obeyed`) and the kernel and connection (`served`) have done all that was asked of them:
with them set, results are exact. The state machines have explicit schedules that reach the end an
operation is for.

Environment choices: target memory I/O (`Debugger.Read`, `Write`, `Sync`), kernel stop calls
(`KernelRenew`, `KernelBegin`, `KernelEnd`), allocation, socket reads and faults are
nondeterministic. Characters on the wire are ASCII codes.

## Findings

What the model shows about the code beyond what its documentation promises. Each row names the
members that state and prove it.

| finding | source | proved by |
|---|---|---|
| A breakpoint inserted over the span of a memory write that is still pending is accepted, and undoing the write then recovers the program image exactly when the bytes the breakpoint saved were already the original ones. | src/uvdb.c:2661-2707 | `PatchState.InsertOverPendingSpan`, instance `CodePatch.InsertOverPendingSpanLosesCode`; `StopSession.ServeStopped` shows that a session starting with nothing pending never gets there |
| A File-I/O reply resumes the target without settling anything: it leaves nothing in doubt exactly when no slot was uncertain and no write pending before it. | src/uvdb.c:4987-5063 | `StopSession.FileReplyPacket`, `StopCleanup.ResumeIsFull`, instance `StopCleanup.ReplyOverUncertainSlot` |
| A resume plan (`c`, `s`, `vCont`) settles uncertain slots but does not look at a pending memory write: it leaves nothing in doubt exactly when no write was pending. | src/uvdb.c:4327-4381 | `StopSession.ApplyResume`, `StopSession.ResumePacket`, `StopCleanup.ResumeIsFull`, instance `StopCleanup.PlanOverPendingWrite` |
| A live write answers -2 with its cleanup finished exactly when lifting the breakpoints failed and putting them back succeeded. | src/uvdb.c:2893-2978 | `Debugger.CaptureBreakpoints`, `Debugger.WriteLive`, instance `CodePatch.PutBackInstance` |
| The two tests of the payload limit after the loop of the frame scan never fire. | src/uvdb_rsp_frame.c:94-112 | `RspFrame.LateLimitTestsNeverFire` |
| The overflow test of the hex parser never fires. | src/uvdb_thread_control.c:193-194 | `VCont.OverflowTestNeverFires` |
| The comparisons the lease keeper makes after a failed renewal never come out different: ownership already excludes a change. | src/uvdb.c:6337-6370 | `LeaseProtocol.StepIsSafe` |
| Stepping over Thumb `ADD PC, Rm` aims at the architecture's target exactly at word-aligned instructions (or when it refuses); elsewhere it is two bytes short. | src/uvdb_thread_control.c:878-885 | `ArmStep.ThumbAddInverts`, instance `ArmStep.AddPcInstance` |

## Model

| member | source | states |
|---|---|---|
| PatchState.UndoAt | src/uvdb_breakpoint_patch.c:59-82 | undoing all slots gives, at every address, the saved original of the one slot covering it, else the byte in memory |
| PatchState.RecoversIsUndo | src/uvdb_breakpoint_patch.c:59-82 | the slot invariant is exactly: overlaying the saved originals on memory yields the code |
| PatchState.OneSlotPerAddress | src/uvdb.c:2582-2591 | two live slots never start at the same address, so the table lookup is unambiguous |
| PatchState.ScrambleSlot | src/uvdb_breakpoint_patch.c:59-82 | whatever a failing write leaves inside a live slot's range, its original still recovers the code |
| PatchState.PublishSlot | src/uvdb_breakpoint_patch.c:106-173 | recording the original before the first write keeps every other slot and the image |
| PatchState.RetireSlot | src/uvdb_breakpoint_patch.c:49-82 | a slot may be cleared once its range holds the original again |
| PatchState.InsertOverPendingSpan | src/uvdb.c:2661-2707 | a trap over a pending write's span recovers the image after the restore if and only if the bytes it saved were already the original ones |
| CodePatch.InsertOverPendingSpanLosesCode | src/uvdb.c:2661-2707 | a sound table with a half-done write where the planted trap loses the image |
| CodePatch.PendingWriteInstance | src/uvdb_memory_transaction.c:120-139 | a sound table with a write left half-done |
| CodePatch.UncertainInstance | src/uvdb_breakpoint_patch.c:59-82 | a sound table whose one breakpoint could not be taken out, as a failed restore leaves it |
| CodePatch.PutBackInstance | src/uvdb.c:2893-2919 | the three slot operations of a lift that fails, a retry that lifts and a re-arm that plants end in the table and memory they started from |
| CodePatch.Debugger.constructor | src/uvdb_breakpoint_patch.c:84-89 | a fresh debugger owes nothing and its image is the memory |
| CodePatch.Debugger.RestoreSlot | src/uvdb_breakpoint_patch.c:175-195 | success empties the slot with its original verified in memory; failure keeps the obligation; the image never changes; the outcome is the run of some target answers, and a success when the target obeys |
| CodePatch.Debugger.InstallSlot | src/uvdb_breakpoint_patch.c:106-173 | installed with the trap bytes in place, empty with memory unchanged, or restore pending; the image never changes; the outcome is the run of some target answers, and installed when the target obeys |
| CodePatch.Debugger.VerifyBytes | src/uvdb_memory_transaction.c:17-37 | the chunked comparison succeeds only if memory holds the bytes, and exactly then when the target obeys |
| CodePatch.Debugger.PrepareTransaction | src/uvdb_memory_transaction.c:77-98 | the recorded bytes are those in memory, or nothing is recorded; with an obedient target exactly the spans that fit are recorded |
| CodePatch.Debugger.ApplyTransaction | src/uvdb_memory_transaction.c:120-139 | applied with the new bytes verified in memory, or rolled back, or still pending with the original recorded; applied when the target obeys |
| CodePatch.Debugger.RestoreTransaction | src/uvdb_memory_transaction.c:100-118 | success puts the original back and clears the record; failure keeps it; a success when the target obeys |
| CodePatch.Debugger.CommitTransaction | src/uvdb_memory_transaction.c:141-149 | only an applied transaction commits, and then the image is the code with the new bytes |
| CodePatch.Debugger.Find | src/uvdb.c:2582-2591 | the live slot at the address if there is one |
| CodePatch.Debugger.Insert | src/uvdb.c:2661-2707 | for every address the table gains at most the requested entry, live slots stay disjoint, a refusal changes nothing, an uncertain patch is reported as restore pending; success has the trap's very bytes in memory; with an obedient target it succeeds exactly for an aligned, free place with a slot left; a pending write stays undoable unless the trap covers its span |
| CodePatch.Debugger.Remove | src/uvdb.c:2740-2750 | the entry goes exactly when its original is back, always when the target obeys; every other slot is untouched |
| CodePatch.Debugger.RemoveAll | src/uvdb.c:2752-2761 | returns 0 exactly when every slot is clear, and then memory is the code; 0 when the target obeys |
| CodePatch.Debugger.RemoveTemporary | src/uvdb.c:2998-3008 | step traps go, all of them when the target obeys; persistent breakpoints stay |
| CodePatch.Debugger.RestorePendingSlots | src/uvdb.c:2980-2990 | success leaves no slot uncertain; a success when the target obeys |
| CodePatch.Debugger.LiftListed | src/uvdb.c:2833-2845 | success leaves no listed slot planted; slots that are not listed are untouched; a success when the target obeys |
| CodePatch.Debugger.RearmListed | src/uvdb.c:2847-2868 | success has every recorded entry in place; slots that are not listed are untouched; a success when the target obeys and there is room |
| CodePatch.Debugger.RestorePendingWrite | src/uvdb.c:2870-2891 | the image and the breakpoints owed never change; success means they are in place, and comes when the target obeys and there is room for them |
| CodePatch.Debugger.RetryPendingWrite | src/uvdb.c:2870-2891 | any number of failed retries and then a success reach the old image and the old breakpoint set, every trap of it in place |
| CodePatch.Debugger.CaptureBreakpoints | src/uvdb.c:2893-2919 | success leaves no breakpoint over the span and none elsewhere disturbed; a failed lift is told apart by whether all breakpoints are back; in every case the image is unchanged and the breakpoints owed are the ones there were; a success when the target obeys |
| CodePatch.Debugger.WriteLive | src/uvdb.c:2921-2978 | 0: the image is the old one with exactly the new bytes and the same breakpoints; -1: both are unchanged; -2: both are still owed unchanged, with no cleanup outstanding exactly when the lift failed and the put-back succeeded; with an obedient target and nothing pending it is 0 exactly for hex digits over an existing span that fits the storage, and else -1; breakpoints beside the span are untouched |
| CodePatch.RoomFromTable | src/uvdb.c:2893-2919 | breakpoints listed from the table never lack a slot or a free place when they are to be put back |
| CodePatch.FreeSlot | src/uvdb.c:2847-2868 | a listed breakpoint that is not recorded finds an empty slot |
| CodePatch.Debugger.Serve | src/uvdb.c:2661-3008 | over any commands, inserts over a pending write included, the image changes only by writes that reported success, and a remove-all that returns 0 leaves memory equal to it; with an obedient target those writes are exactly the well-formed ones and every removal succeeds; only a retry that a breakpoint stands in the way of ends the run |
| StopCleanup.StopSession.ClearRunsImage | src/uvdb.c:3687-3760 | with nothing owed, target memory is the program image |
| StopCleanup.StopSession.RecoverStop | src/uvdb.c:3602-3632 | success leaves a current token and the failed flag clear; failure keeps the token and sets the flag; an accepted renewal keeps the session it renewed; a success when the kernel serves |
| StopCleanup.StopSession.RestoreWrite | src/uvdb.c:1798-1804 | a pending write is put back, and only while the stop is coherent; success is exactly that none is left |
| StopCleanup.StopSession.RemoveEvery | src/uvdb.c:1805-1814 | every breakpoint is taken out, and only while the stop is coherent; success is exactly that nothing is owed |
| StopCleanup.StopSession.EndTwice | src/uvdb.c:1815-1828 | a stop that comes back coherent from its first end is ended a second time before failure is reported |
| StopCleanup.StopSession.EndStop | src/uvdb.c:3634-3653 | exactly one kernel call for a token and none without; a failed end comes back recovered (-1) or failed (-2) |
| StopCleanup.StopSession.ReleaseStop | src/uvdb.c:3726-3746 | every end, first and retry, is made with nothing owed; there is a second one exactly when the first came back coherent; no token is left |
| StopCleanup.StopSession.FailStoppedClientOwned | src/uvdb.c:3687-3760 | restores first and releases only with nothing owed, or keeps the stop; the claim is given back on every path; with kernel and target serving it restores and releases |
| StopCleanup.StopSession.FailStoppedClient | src/uvdb.c:3762-3768 | the same from outside, with no nested claim |
| StopCleanup.StopSession.BeginOperation | src/uvdb.c:3789-3798 | the session is claimed and proved current, always when it is and the kernel serves, or the client has been failed safely |
| StopCleanup.StopSession.DetachClient | src/uvdb.c:4900-4928 | detached means the stop ended with everything restored, and happens when kernel and target serve |
| StopCleanup.StopSession.StopServerCleanup | src/uvdb.c:1688-1753 | success means nothing is owed and no session is left, and comes when kernel and target serve |
| StopCleanup.StopSession.ShutdownCleanup | src/uvdb.c:1772-1830 | every release, including the retry after a failed one, happens with nothing owed; when the all-stop cannot be recovered nothing is released and target memory is left alone; a success when kernel and target serve |
| StopCleanup.StopSession.WritePacket | src/uvdb.c:4843-4871 | answered OK exactly with the new bytes in the image; with nothing failing that is every well-formed write |
| StopCleanup.StopSession.InsertPacket | src/uvdb.c:4872-4898 | the table gains at most the entry; with nothing failing it is answered OK exactly when the table accepts it |
| StopCleanup.StopSession.RemovePacket | src/uvdb.c:4872-4898 | a session that goes on no longer has the entry |
| StopCleanup.StopSession.ApplyResume | src/uvdb.c:4327-4381 | a resume happens only with no slot in an uncertain state and, for a step, with the step trap in place at its address and size; breakpoints in place are kept and nothing else is planted; held peers make no kernel call; the log says exactly whether a write was pending; with kernel and target serving it succeeds exactly for a valid plan whose trap the settled table accepts |
| StopCleanup.StopSession.ResumePacket | src/uvdb.c:4931-4985 | a target that runs has its step trap in place; a resume by plan logs exactly whether a write was pending; with none pending the target runs with nothing in doubt; with kernel and target serving it runs exactly for a valid plan whose trap the settled table accepts |
| StopCleanup.StopSession.FileReplyPacket | src/uvdb.c:4987-5063 | a resume by reply logs exactly what was uncertain or pending before it; with the kernel serving it resumes exactly for a well-formed reply without an interrupt |
| StopCleanup.ReplyOverUncertainSlot | src/uvdb.c:5043-5063 | a sound start state from which a reply resumes over an uncertain slot |
| StopCleanup.PlanOverPendingWrite | src/uvdb.c:4327-4381 | a sound start state from which a plan resumes over a pending write |
| StopCleanup.ResumeIsFull | src/uvdb.c:4327-4381 | a resume leaves nothing in doubt exactly when nothing was pending and, for a reply, no slot was uncertain |
| StopCleanup.StopSession.ServeStopped | src/uvdb.c:4402-5060 | over any packets, losses and kernel answers every EndStop call for a release was made with nothing owed and every resume by plan with no slot uncertain; the image changes only by writes answered OK; from a start with nothing in doubt every resume, by plan or reply, leaves nothing in doubt, and as long as nothing fails every packet up to one that may end the session is served and every well-formed write done; a session that starts with no write pending never meets an insert over one |
| LeaseProtocol.StepKeepsInv | src/uvdb.c:3523-3665 | one thread inside at most, claims and releases balance, what the keeper loaded is still stored, and every controller is where its operation would be if nothing ran beside it |
| LeaseProtocol.StepIsSafe | src/uvdb.c:6337-6370 | token and generation change only under a controller's ownership; a failure is recorded only for a refused renewal of the session in place; ownership changes hands only through nobody; the keeper leaves only with its visit done |
| LeaseProtocol.RunIsSafe | src/uvdb.c:6337-6370 | all of it holds of every step of every interleaving |
| LeaseProtocol.OperationsAreAtomic | src/uvdb.c:3523-3665 | in every interleaving an operation that has returned made of the session exactly what it would have made alone of the session it found: begin, refresh, recover, end and abandon, given the kernel's answers |
| LeaseProtocol.KeeperVisit | src/uvdb.c:6337-6370 | in every interleaving a refused renewal is recorded against the session the keeper found by the time it leaves, an accepted one leaves everything alone, and a missing or marked session is not renewed |
| LeaseProtocol.AdvanceCarriesOn | src/uvdb.c:3542-3551 | the two additions lead to the next generation that is not zero |
| LeaseProtocol.AdvanceTwice | src/uvdb.c:3542-3551 | skipping generation zero takes at most two additions |
| ConsoleQueue.ChopPayload | src/uvdb_console.c:218-300 | the records cut from a capture hold exactly the accepted part of its data, in order |
| ConsoleQueue.ChopCount | src/uvdb_console.c:62-68 | the records accepted and those still owed for the rest add up to one for each started 128 bytes |
| ConsoleQueue.ChopSequence | src/uvdb_console.c:218-300 | the records of one capture carry consecutive sequence numbers, with zero skipped |
| ConsoleQueue.PurgeIsComplete | src/uvdb_console.c:101-116 | when queued records are oldest generation first and none is newer, purging from the head leaves only the given generation |
| ConsoleQueue.SlotAtIsModulo | src/uvdb_console.c:91-116 | the wrap-around index is the position modulo 64 |
| ConsoleQueue.Ring.Push | src/uvdb_console.c:218-300 | the ring array, head, tail, count and byte total stand for the old contents with one record appended |
| ConsoleQueue.Ring.DropHead | src/uvdb_console.c:91-99 | exactly the head record leaves, and it is handed to the caller to be counted |
| ConsoleQueue.Ring.Purge | src/uvdb_console.c:101-108 | the ring is empty and every record and byte that left is counted |
| ConsoleQueue.Ring.PurgeOtherGenerations | src/uvdb_console.c:110-116 | the ring holds what the purge specification leaves, and what left is counted |
| ConsoleQueue.Ring.Capture | src/uvdb_console.c:218-300 | purge, then append the chopped data up to 64 records; the rest is reported as not accepted |
| ConsoleQueue.Ring.Peek | src/uvdb_console.c:302-328 | the oldest record of the generation, which stays queued |
| ConsoleQueue.Ring.Commit | src/uvdb_console.c:330-363 | the head leaves exactly when generation and sequence match it |
| ConsoleProtocol.PurgeEndIsPurge | src/uvdb_console.c:110-116 | the protocol's purge is the ring's |
| ConsoleSafety.StepKeepsInv | src/uvdb_console.c:137-363 | every step of producers, owner and emergency gate keeps exclusion, age order, attachment and delivery |
| ConsoleSafety.DeliveredIsPrefix | src/uvdb_console_transport.c:109-221 | in every run, for every generation, the payload of the fully written frames is a prefix of the bytes accepted for it |
| ConsoleSafety.PurgeLeavesOneGeneration | src/uvdb_console.c:101-116 | in every run, purging from the head removes every stale record |
| ConsoleSafety.CommitFindsItsRecord | src/uvdb_console_transport.c:109-221 | a written frame whose session is current is still at the head when it is committed, however often the commit was busy |
| ConsoleAccounts.StepBalances | src/uvdb_console.c:218-363 | every step keeps offered = queued + sent + dropped + in hand, for bytes and for records |
| ConsoleAccounts.RunBalances | src/uvdb_console.c:62-99 | so does every run |
| ConsoleAccounts.QuiescentCountersBalance | src/uvdb_console.c:365-398 | with no call in progress the 32-bit counters balance modulo 2^32, bytes and records |
| ConsoleProgress.OutputIsCaptured | src/uvdb_console.c:218-300 | output in an open session with the queue free is queued as far as there is room and the rest counted as lost to a full queue |
| ConsoleProgress.DisconnectedLoses | src/uvdb_console.c:218-300 | without a session it is counted as offered and as disconnected |
| ConsoleProgress.ContentionLoses | src/uvdb_console.c:218-300 | without the lock it is counted as offered and as contention |
| ConsoleProgress.PumpDelivers | src/uvdb_console_transport.c:109-221 | a pump left alone writes the oldest record, commits it and counts it |
| ConsoleProgress.PumpDeliversAll | src/uvdb_console_transport.c:109-221 | and so everything queued for its session, in order |
| ConsoleProgress.OpenSucceeds | src/uvdb_console.c:137-169 | opening empties the queue into the stale count and makes the next generation current |
| ConsoleProgress.CloseSucceeds | src/uvdb_console.c:171-202 | closing shuts the session and empties the queue into the stale count |
| ConsoleProgress.StaleSessionFails | src/uvdb_console_transport.c:12-18 | a session that is no longer current stops the pump |
| ConsoleProgress.PartialWriteFails | src/uvdb_console_transport.c:109-221 | a partial write marks the transport, a refused one changes nothing, and the record stays queued |
| ConsoleProgress.MarkedStaysQuiet | src/uvdb_console_transport.c:87-101 | a marked transport starts nothing but the end of its connection |
| ConsoleProgress.QueueBounds | src/uvdb_console.c:218-300 | at most 64 records wait, each of one to 128 bytes, cut at 128 |
| ConsoleProgress.SequenceWraps | src/uvdb_console.c:218-300 | sequence numbers count through 64 bits and skip zero |
| RspFrame.RunConcat | src/uvdb_rsp_frame.c:17-143 | reading two pieces of a stream one after the other is reading them joined |
| RspFrame.ScanFrame | src/uvdb_rsp_frame.c:17-143 | each verdict is what the per-byte scanner makes of the buffer: a discard takes at least one byte and owes the right refusal, an incomplete frame is at most limit + 3 bytes, a complete one is a packet |
| RspFrame.LateLimitTestsNeverFire | src/uvdb_rsp_frame.c:94-112 | where the loop stops the payload is within the limit |
| RspFrame.FrameIsPacket | src/uvdb_rsp_frame.c:119-142 | a checksummed frame around a plain payload is exactly that packet |
| RspFrame.EscapedIsPacket | src/uvdb_rsp_frame.c:17-143 | whatever a client escapes, `$`, the escaped data, `#` and two digits are read as one packet |
| RspFrame.ChecksumIsSum | src/uvdb_rsp_frame.c:119-142 | the digits are the sum of the payload modulo 256 |
| RspReceive.Receiver.GetSpace | src/uvdb.c:986-1023 | growth is refused only when the buffer is full at the maximum |
| RspReceive.Receiver.Poll | src/uvdb.c:1025-1076 | from an incomplete frame there is always room, and what is read joins the buffer |
| RspReceive.Receiver.ReceivePacket | src/uvdb.c:1961-2039 | the packet handed out is the next of the stream, after the refusals before it, whatever the reads were; a failed flush hands nothing out and only withholds acknowledgements |
| RspReceive.Receiver.DiscardPacket | src/uvdb.c:2041-2065 | exactly the frame leaves the buffer |
| RspReceive.ReceiveAll | src/uvdb.c:1961-2065 | however the stream is cut into reads, all packets and acknowledgements are those of the per-byte scanner; a fault only cuts both short |
| RspReceive.AcksAre | src/uvdb.c:1961-2039 | one `+` a packet and one `-` a refusal, in order, and none in quiet mode |
| RspReceive.OverwriteIsStatusQuery | src/uvdb.c:4383-4400 | the overwritten frame means one `?`, its remains are silent, and what follows is unchanged |
| RspReceive.Receiver.ReplaceWithStatus | src/uvdb.c:5043-5055 | the buffer is that of a stream with a status query inserted after the frame |
| VCont.InventoryValid | src/uvdb_thread_control.c:79-93 | true exactly for at most 64 positive, distinct identifiers |
| VCont.ParseHex | src/uvdb_thread_control.c:182-199 | accepts exactly one to eight digits, with their value |
| VCont.OverflowTestNeverFires | src/uvdb_thread_control.c:193-194 | with fewer than eight digits read, one more fits 32 bits |
| VCont.ParseThread | src/uvdb_thread_control.c:201-216 | `-1`, or a number that fits a thread identifier |
| VCont.LeftmostMatch | src/uvdb_thread_control.c:339-349 | finds whether a thread is covered and whether its leftmost action steps |
| VCont.Reduce | src/uvdb_thread_control.c:383-418 | a plan exists exactly when every thread is covered and at most one steps, and it steps that one |
| VCont.ParseActions | src/uvdb_thread_control.c:351-381 | reads exactly the action lists a packet can spell, with known threads and at most 65 actions |
| VCont.SpellsOnce | src/uvdb_thread_control.c:351-381 | a packet spells at most one action list |
| VCont.ParseVCont | src/uvdb_thread_control.c:351-418 | accepted exactly for a reducible action list over a proper inventory |
| VCont.PrintSpells | src/uvdb_thread_control.c:312-381 | every list of actions a client can ask for is what its packet in ASCII spells, and nothing else |
| VCont.ParsePrinted | src/uvdb_thread_control.c:351-418 | parsing what a client prints plans what the client asked for |
| VCont.StepOneThread | src/uvdb_thread_control.c:339-418 | `vCont;s:t;c` steps exactly thread t |
| VCont.StepAnyThread | src/uvdb_thread_control.c:339-418 | `vCont;s:0;c` steps the first thread |
| VCont.PlainRequests | src/uvdb_thread_control.c:339-418 | `vCont;c` steps none; `vCont;s` is accepted for a single thread only; an earlier action hides later ones |
| ResumePackets.ResumeLeavesStatusQuery | src/uvdb.c:4383-4400 | overwriting any accepted `c`, `s` or `vCont` packet in place leaves exactly one status query |
| ResumePackets.FileReplyLeavesStatusQuery | src/uvdb.c:5043-5055 | so does overwriting any File-I/O reply, whatever it carries |
| Hex.DecodeEncode | src/uvdb_rsp.c:23-27 | decoding the printed bytes gives them back |
| Hex.DigitCodes | src/uvdb_rsp.c:8-21 | exactly `0` to `9`, `a` to `f` and `A` to `F` are digits, with their values |
| Hex.DecodeBytes | src/uvdb_rsp.c:480-508 | accepts exactly `size` digit pairs and produces nothing otherwise |
| Registers.ReadValueText | src/uvdb_rsp.c:202-218 | reading a printed little-endian value gives the value |
| Registers.StartsTile | src/uvdb_rsp.c:70-127 | the places of the described registers do not overlap and stay inside the packet, in both layouts |
| Registers.StartsFill | src/uvdb_rsp.c:262-310 | every character of the packet belongs to a described register |
| Registers.EncodePacket | src/uvdb_rsp.c:262-310 | every single-register answer is the slice of the packet at its place, in both layouts |
| Registers.ExplicitReadsBack | src/uvdb_rsp.c:262-310 | every word, double and status of the explicit layout reads back from its place, and is `x` without floating point |
| Registers.ParseCorePacket | src/uvdb_rsp.c:510-548 | accepts exactly the well-formed legacy packets, with the values their digits stand for |
| Registers.RoundTrip | src/uvdb_rsp.c:510-548 | `G` and the printed legacy packet parse to the same registers |
| ConsoleFrames.EncodePayload | src/uvdb_rsp.c:232-260 | `O` and the hex of the data |
| ConsoleFrames.FrameRecord | src/uvdb_console_transport.c:35-56 | one packet to any scanner with room for it, whose digits decode to the record |
| ConsoleFrames.FrameScans | src/uvdb_rsp_frame.c:119-142 | the frame scan of such a frame can only find it complete |
| ConsoleFrames.ReadBack | src/uvdb_console_transport.c:35-56 | framing, scanning and decoding a record gives the record |
| ArmBits.ConditionsPair | src/uvdb_thread_control.c:443-465 | condition codes come in opposites, 14 always passes and 15 never |
| ArmBits.ConditionTable | src/uvdb_thread_control.c:443-465 | each even code reads exactly its status bits |
| ArmBits.ConditionsCompare | src/uvdb_thread_control.c:443-465 | after a comparison the codes are equal, unsigned at least and above, signed at least and above |
| ArmStep.ArmPlansWriters | src/uvdb_thread_control.c:575-702 | for every word, state and register file a planned target is aligned, is not the pc, and its word may write the pc |
| ArmStep.ArmLoadsWrite | src/uvdb_thread_control.c:704-756 | a planned load of the pc is a word that may write the pc |
| ArmStep.Thumb16PlansWriters | src/uvdb_thread_control.c:811-888 | the same for 16-bit Thumb branches |
| ArmStep.Thumb32PlansWriters | src/uvdb_thread_control.c:890-940 | the same for 32-bit Thumb branches |
| ArmStep.Thumb32LoadsWrite | src/uvdb_thread_control.c:942-1003 | the same for 32-bit Thumb loads of the pc |
| ArmStep.ArmBranchInverts | src/uvdb_thread_control.c:650-662 | the planner inverts the A32 B and BL encoders for every offset in range; a branch to itself is refused |
| ArmStep.ArmExchangeInverts | src/uvdb_thread_control.c:637-648 | and the A32 BLX encoder |
| ArmStep.ThumbBranchInverts | src/uvdb_thread_control.c:821-831 | and the conditional 16-bit B |
| ArmStep.ThumbJumpInverts | src/uvdb_thread_control.c:833-840 | and the 16-bit B |
| ArmStep.CompareBranchInverts | src/uvdb_thread_control.c:842-853 | and CBZ and CBNZ, which follow the register and not the flags |
| ArmStep.LongOffsetInverts | src/uvdb_thread_control.c:903-922 | the J1 and J2 bits give the offset back |
| ArmStep.ThumbLongInverts | src/uvdb_thread_control.c:903-922 | B.W and BL |
| ArmStep.ThumbExchangeInverts | src/uvdb_thread_control.c:903-922 | Thumb BLX, from the word-aligned base |
| ArmStep.ThumbShortInverts | src/uvdb_thread_control.c:924-937 | the conditional B.W |
| ArmStep.ArmRegisterInverts | src/uvdb_thread_control.c:679-696 | A32 BX and BLX to a register follow the architecture's BXWritePC |
| ArmStep.ThumbRegisterInverts | src/uvdb_thread_control.c:855-867 | so do the Thumb ones; BLX PC is refused |
| ArmStep.ThumbMoveInverts | src/uvdb_thread_control.c:869-876 | MOV PC follows BranchWritePC |
| ArmStep.ThumbAddInverts | src/uvdb_thread_control.c:878-887 | ADD PC agrees with the architecture if and only if the instruction is word-aligned or refused |
| ArmStep.AddPcInstance | src/uvdb_thread_control.c:878-887 | a halfword-aligned instruction where it does not |
| ArmStep.ReadsAhead | src/uvdb_thread_control.c:507-513 | the program counter reads eight ahead, in Thumb state four |
| ArmAlu.DataInverts | src/uvdb_thread_control.c:575-625 | every A32 data-processing instruction into the pc that leaves the flags alone goes to the architecture's result, by BXWritePC |
| ArmAlu.AluComputes | src/uvdb_thread_control.c:605-624 | the twelve results are those of addition with carry and of the logical operations |
| ArmAlu.ShiftedBits | src/uvdb_thread_control.c:515-552 | every bit of a shifted register is the one the shift puts there, with the special cases of shift zero |
| ArmAlu.ImmediateBits | src/uvdb_thread_control.c:554-573 | every bit of an immediate operand is the one its rotation puts there |
| ArmLoads.ArmImmediateLoad | src/uvdb_thread_control.c:704-756 | LDR PC with an immediate offset, in every indexing form, with the refused ones |
| ArmLoads.ArmRegisterLoad | src/uvdb_thread_control.c:704-756 | and with a shifted register |
| ArmLoads.ThumbLiteralLoad | src/uvdb_thread_control.c:942-968 | LDR.W PC from a literal |
| ArmLoads.ThumbPositiveLoad | src/uvdb_thread_control.c:970-975 | from a register plus twelve bits |
| ArmLoads.ThumbIndexedLoad | src/uvdb_thread_control.c:977-990 | with an eight-bit index before or after |
| ArmLoads.ThumbOffsetLoad | src/uvdb_thread_control.c:992-1003 | and with a shifted register, never the stack pointer or the pc |
| ItBlocks.StatusRoundTrip | src/uvdb_thread_control.c:1134-1137 | the IT state read from the status register is the one stored there |
| ItBlocks.ReachesZero | src/uvdb_thread_control.c:1139-1144 | from any state exactly the number of guarded instructions leads to zero, at most four |
| ItBlocks.SlotsInOrder | src/uvdb_thread_control.c:1139-1144 | advancing serves the conditions the block encodes, in order |
| ItBlocks.SkipsByCondition | src/uvdb.c:3010-3033 | the processor skips the k-th instruction of a block exactly when its own condition fails |
| ItBlocks.PastWidth | src/uvdb.c:3027-3031 | a first halfword from 0xe800 on is followed four bytes later, any other two |
| ItBlocks.AfterSkipped | src/uvdb.c:3010-3033 | the walk from a skipped slot ends where the processor first executes |
| ItBlocks.AfterIt | src/uvdb.c:3100-3124 | so does the walk from the IT instruction, so the two agree |
| ItBlocks.TrapEndsPath | src/uvdb.c:3010-3033 | the trap is on the first slot whose condition passes, else after the block, after at most four skipped instructions of mixed width |
| ExclusiveStep.ArmShapes | src/uvdb_exclusive_step.c:129-194 | the A32 exclusive shapes, spelled out |
| ExclusiveStep.ArmLoadsDecode | src/uvdb_exclusive_step.c:129-194 | the four A32 loads decode to their family, base and condition, valid exactly for the registers the architecture allows |
| ExclusiveStep.ArmStoresDecode | src/uvdb_exclusive_step.c:129-194 | so do the four A32 stores |
| ExclusiveStep.ThumbLoadsDecode | src/uvdb_exclusive_step.c:196-349 | and the four Thumb loads |
| ExclusiveStep.ThumbStoresDecode | src/uvdb_exclusive_step.c:196-349 | and the four Thumb stores |
| ExclusiveStep.ThumbKinds | src/uvdb_exclusive_step.c:196-349 | and no other Thumb words do |
| ExclusiveStep.ArmFallsThrough | src/uvdb_exclusive_step.c:82-194 | no A32 instruction the scan accepts writes the pc |
| ExclusiveStep.Thumb32FallsThrough | src/uvdb_exclusive_step.c:196-349 | nor does any Thumb one |
| ExclusiveStep.HalfIsLittleEndian | src/uvdb_exclusive_step.c:68-72 | a halfword stored low byte first is fetched back |
| ExclusiveStep.WordIsLittleEndian | src/uvdb_exclusive_step.c:74-80 | so is a word |
| ExclusiveStep.ReadInstruction | src/uvdb_exclusive_step.c:453-482 | an instruction is read within the byte limit, every byte of it once and in order, or not at all |
| ExclusiveStep.ScanLoop | src/uvdb_exclusive_step.c:376-514 | finds the one bounded exclusive sequence from an address, or shows there is none |
| ExclusiveStep.Scan | src/uvdb_exclusive_step.c:516-537 | a target exactly for a bounded sequence from a supported state; every read lies inside the scanned bytes, and the reads of a success run from the start to the target without a gap |
| ExclusiveStep.SequenceIsUnique | src/uvdb_exclusive_step.c:376-514 | a sequence has only one length |
| ExclusiveStep.TargetIsReached | src/uvdb_exclusive_step.c:376-537 | a processor that falls through non-writers first reaches the target after exactly the scanned number of steps |
| ExceptionAdmission.StepKeepsInv | src/uvdb.c:5393-5690 | every step keeps the counts exact, one primary, one predecessor per type, gate and lock with their holders, and no failed release |
| ExceptionAdmission.AdmissionIsExclusive | src/uvdb_exception_guard.c:14-159 | at most one primary callback, at most one predecessor per exception type, the active count equals the callbacks inside |
| ExceptionAdmission.ClosedAndIdleIsFinal | src/uvdb.c:1448-1460 | after close and an idle observation no primary or nested callback is ever inside |
| ExceptionAdmission.ReturnedGivesBack | src/uvdb_protocol_gate.c:14-73 | when every callback has returned, guard, gate, lock and admissions are all given back |
| AdmissionProgress.FirstStops | src/uvdb.c:5393-5690 | the first callback, left alone, stops the target with gate and lock in its hands |
| AdmissionProgress.FirstReturns | src/uvdb.c:5393-5690 | and gives everything back, having waited without the lock if it likes |
| AdmissionProgress.NestedRunsPredecessor | src/uvdb_exception_guard.c:14-87 | a later one, or one that finds the guard closed, runs the predecessor of its type and leaves no trace |
| AdmissionProgress.ContendedRunsPredecessor | src/uvdb.c:5393-5690 | a first one that cannot have the lock gives the gate back and runs the predecessor |
| AdmissionProgress.RefusedLeavesNoTrace | src/uvdb_exception_guard.c:14-54 | a full guard or an unknown type is refused without a trace |
| AdmissionProgress.TeardownCompletes | src/uvdb.c:1448-1460 | a teardown of an idle guard closes it and sees it idle |
| AdmissionProgress.IdleWasSeen | src/uvdb_exception_guard.c:150-159 | in every run a teardown that ended once saw each of admissions, active count, owner and predecessors empty behind a closed guard |
| DebugNet.StepKeepsInv | src/uvdb_debugnet.c:298-456 | every step of writers, worker, stop and emergency stop keeps exclusion, counts, order, sealing and wake-up |
| DebugNet.NormalStopDrains | src/uvdb_debugnet.c:298-375 | messages are sent in order and once; a worker that ends normally has sent every accepted one |
| DebugNet.NoLostWakeup | src/uvdb_debugnet.c:770-806 | a parked worker over a non-empty queue has a signal present or about to be given |
| DebugNet.FreedIsUnused | src/uvdb_debugnet.c:388-456 | the queue is freed only with the gate shut, no admitted writer and the worker gone |
| DebugNetProgress.WriterIsHeard | src/uvdb_debugnet.c:770-881 | a message before an open gate with room in the queue is accepted and the worker signalled |
| DebugNetProgress.FullQueueDrops | src/uvdb_debugnet.c:770-806 | with 64 waiting it is dropped and nothing changes |
| DebugNetProgress.WorkerSends | src/uvdb_debugnet.c:298-375 | a signalled worker left alone sends everything accepted and sleeps again |
| DebugNetProgress.StopCompletes | src/uvdb_debugnet.c:938-1010 | a stop of a quiet sender ends with everything sent, the gate shut, the worker gone and the queue freed |
| DebugNetProgress.EmergencyStops | src/uvdb_debugnet.c:155-188 | an emergency stop shuts the gate, marks the owner gone, makes a running sender stopping and wakes the worker |
| DebugNetProgress.WorkerAbandons | src/uvdb_debugnet.c:298-375 | and the woken worker ends without sending more |
| DebugNetProgress.Bounded | src/uvdb_debugnet.c:770-846 | at most 64 messages wait and at most 255 writers are counted |

## Left out

- Sockets, epoll, accepting and admitting a client, thread creation and joining, delays and timeouts: only their possible results appear, as environment choices.
- Kernel companion calls and KuBridge internals: nondeterministic answers with the documented result contract.
- Stop-trace diagnostics, monitor text, and the statistics that no property mentions.
- src/stdio_redirect.c, src/uvdb_exception_handlers.c, src/uvdb_fileio_flow.c, src/uvdb_vfp_policy.c, src/uvdb_registers.c and the Python tools: small tables, private library details or orchestration.
- Memory ordering: every atomic access is one sequentially consistent step.
- Full instruction semantics: only the next address of the decoded forms, and that other instructions fall through. Which other words write the program counter is the source's own list.
- Patch slots with an owner identity (src/uvdb_breakpoint_patch.c:29-47): the debugger uses one owner.
- Memory, `P`, `p` and File-I/O packet parsers: straight-line field checks around the hex decoder that is modelled.
- Thread selection (`Hg`, `Hc`) and resume-plan validation: single branches; a resume packet carries whether its plan is valid.
- Starting DebugNet and the console across process restarts: each model covers one DebugNet session after a successful start; the console model covers any number of sessions but fewer than 2^31 opens, so that generations do not repeat.
- CodePatch.Debugger.Serve: ends at a retry of a pending write while a breakpoint that was inserted later covers its span, because putting the bytes back under a live trap can break the records; `InsertOverPendingSpan` says exactly when the image is still recovered.
- CodePatch.Debugger.RestorePendingWrite: requires that no such breakpoint stands in the way, for the same reason.
- The schedules of the `Progress` modules: they show that an operation can reach its end with the threads named and all others at rest, not that every fair schedule does.
- StopCleanup.StopSession.ServeStopped: ends before an insert over a write left pending by an earlier session, for the same reason; from a session that starts with none pending it never does.
- The stores to the stop token, owner and failed flag in shutdown and server start (src/uvdb.c:1909-1912, 6419-6421): made while no keeper thread exists, outside the ownership protocol.
- ExceptionAdmission.StepKeepsInv: the guard's statistics counters are not part of the state, nor is reopening a closed guard, which nothing in the stub calls.
