# IST service: a verified model

The IST service runs in-system tests of the CPUs of a server from its management controller. It
receives the test vectors as a PLDM firmware update package, keeps them as one image on disk, mounts
that image, and runs the tests as one long chain of asynchronous steps on a single-threaded event loop.
This project models the parts of that service whose steps can arrive in any order, and proves what
holds over every order.

* **The vector update** (`MachineWord`, `Crc32`, `CrcPolynomial`, `PldmHeader`, `PackageFormat`,
  `UpdateSessions`, `UpdateReference`, `UpdateLaws`, `VectorManager`, `UpdateWitnesses`). Bytes arrive in reads of any
  size. A peek session buffers them until the package header can be judged, then a transfer session writes
  the payload and checks its CRC. `UpdateReference` sees each upload as one stream, without sessions,
  buffers or a running checksum, and the manager does what it says for every series of events and every
  answer of the system; it says exactly when the image is the one that the whole stream asks for, and
  `UpdateLaws` says in terms of the stream and the answers alone when a transfer starts, ends and is mounted. The
  checksum is proved to be a polynomial remainder over the field of two elements, as CRC-32 is defined in
  section 8 of RFC 1952, and to detect every change inside 32 consecutive bits. The table walk undoes a
  writer of the header layout of DSP0267 v1.3.0, under a condition that is exact.
* **The run orchestrator** (`RunChain`, `IstService`, `CpuDiscovery`). `RunChain` says as values which job
  each answer leads to, and proves what that comes to over a whole run: each job is launched exactly when
  the jobs it depends on went well, the deassert hook runs exactly if the boot was asserted, and the run
  completes exactly if the answers say that all it needed went well. `IstService` makes these moves: one
  callback is outstanding while a run is in progress, each answer brings the run strictly nearer to its end,
  and runs and updates exclude each other.
* **Child processes and the power monitor** (`ChildTrace`, `HookRunner`, `ItmRunner`, `RunLog`,
  `PowerMonitor`). Deadline, grace timer, exit, end of output and drain timer race, and a timer handler may
  still run after it was cancelled. A child reports once, exactly if it has exited and its output has ended
  or been given up, and no signal follows the exit.
* **The one-block-per-turn sessions** (`Results`, `SignatureVerify`). Each has a blocking and a stepped
  form, and both are proved against the same reference, for every sequence of system-call answers.
* **A whole run** (`WholeRun`) joins these: the children, sessions and the host monitor play the jobs that
  the service launches, and the run completes exactly if what happened to each of them says so.

Each object of the service is a class whose methods are its event handlers. What the system answers is a
parameter of the handler (a kernel answer, an exit status, whether a mount works). The methods at the end
of each module (`Upload`, `RunUpdates`, `RunHook`, `RunItm`, `WaitForPowerCycle`, `RunArchiveSession`,
`RunSession`, `RunService`, `PlayRun`) take an arbitrary series of events or chunks, deliver them to the
objects, and state what holds for all of them: these are the main results, with the lemmas that say what
they mean. An event whose handler is not queued is skipped. A handler that the program calls inline, as the
last thing another handler does, is the next event here; the program's other orders are among those
covered.

Two promises of the update turn out false for answers the program does not look at, and are given with
their exact condition and an input: an image whose last flush fails is committed and mounted short
(`UpdateReference.EveryUpdateIsFair`, `UpdateWitnesses.ShortImageIsMounted`), and an unmount that is not
permitted counts as done, so a mounted image is overwritten (`UpdateReference.MountedWhileWriting`,
`UpdateWitnesses.MountedImageIsOverwritten`). The size read from a package with opaque data is a third
(`PackageFormat.WalkInStep`, `PackageFormat.WalkMisreadsOpaqueData`). Of an archive that fails after it was
opened, a file may be lost, and if its removal fails too a part of it stays and is given out later
(`Results.LostWhenFailingLate`, `Results.OutcomeMeaning`, `Results.LosesFirstFile`,
`Results.LeavesTornArchive`).

`dafny verify dfyconfig.toml` checks the project.

## Model

| member | source | states |
|---|---|---|
| Crc32.Crc32Update | src/vector_manager.cpp:71-82 | the two nested loops compute the update function, for byte strings of any length |
| Crc32.ComputeCrc32 | src/vector_manager.cpp:84-87 | the checksum is the complement of the update from all ones |
| Crc32.UpdateConcat | src/vector_manager.cpp:615-628 | folding a payload chunk by chunk gives what one pass over the concatenation gives |
| Crc32.UpdateIsFold | src/vector_manager.cpp:73-80 | the byte loop on machine words is the bit-serial feedback register, bit 0 of each byte first |
| Crc32.FoldLinear | src/vector_manager.cpp:71-82 | the register is linear over XOR, in its start value and in its input together |
| Crc32.UnstepStep | src/vector_manager.cpp:78 | a bit step can be undone, so it is injective |
| Crc32.StepUnstep | src/vector_manager.cpp:78 | every register is reached by a bit step, so it is surjective |
| Crc32.StepsKeepNonzero | src/vector_manager.cpp:76-79 | no number of bit steps takes a nonzero register to zero |
| Crc32.BurstLeavesNonzero | src/vector_manager.cpp:71-82 | an input that is zero outside 32 consecutive bits, and not zero, leaves a nonzero register |
| Crc32.BurstErrorDetected | src/vector_manager.cpp:736-748 | two messages that differ only inside 32 consecutive bits have different checksums |
| Crc32.FourByteCorruptionDetected | src/vector_manager.cpp:736-748 | two messages of equal length that differ only inside 4 consecutive bytes have different checksums |
| CrcPolynomial.FeedIsDivisionStep | src/vector_manager.cpp:78 | one bit step subtracts the generator times the bit shifted out: a step of long division |
| CrcPolynomial.Quotient | src/vector_manager.cpp:71-82 | for every message there is a quotient with which the register is a remainder |
| CrcPolynomial.RemainderUnique | src/vector_manager.cpp:71-82 | quotient and degree below 32 fix the remainder |
| CrcPolynomial.RegisterIsTheRemainder | src/vector_manager.cpp:71-82 | the update from all ones is the remainder, and nothing else is |
| CrcPolynomial.ChecksumIsTheRemainder | src/vector_manager.cpp:84-87 | a value is the checksum exactly if its complement is the remainder |
| Crc32.CheckValue | src/vector_manager.cpp:71-87 | the checksum of "123456789" is the check value published for CRC-32 |
| PldmHeader.HeaderContainsUuid | src/vector_manager.cpp:101-132 | true exactly if the header is long enough and holds the UUID descriptor somewhere |
| PldmHeader.PackageSizeFromHeader | src/vector_manager.cpp:144-201 | the walk terminates on any bytes and depends on the bytes before the declared size alone |
| PldmHeader.CheckIstComponentUuid | src/vector_manager.cpp:211-236 | the four outcomes of the header check, in order, for any buffer |
| PldmHeader.ValidatePldmHeader | src/vector_manager.cpp:246-311 | revision, trailer, header CRC and component info depend on the header alone; `PackageFormat.AcceptedExactly` says what a header needs to pass |
| PldmHeader.VerdictIsStable | src/vector_manager.cpp:453-479 | once a prefix of the stream is judged, no later byte changes the judgement |
| PldmHeader.AcceptedHeaderIsComplete | src/vector_manager.cpp:225-228 | an accepted header has arrived completely, and the payload starts right behind it |
| PackageFormat.SkipDevicesUndoes | src/vector_manager.cpp:154-169 | the device record loop skips exactly the records that were written |
| PackageFormat.LastEndUndoes | src/vector_manager.cpp:184-200 | the component loop gives the largest location plus size of the components that were written |
| PackageFormat.WalkReachesTable | src/vector_manager.cpp:144-184 | the walk over any written header comes down to its component loop, started where the component table was written |
| PackageFormat.WalkUndoesSerialiser | src/vector_manager.cpp:144-201 | the walk over a header written without opaque data before the last component gives the largest location plus size, for any number of device records and components |
| PackageFormat.ReaderAccepts | src/vector_manager.cpp:211-311 | any written header, whatever follows it, is accepted exactly if its revision has a payload checksum, it is at most 4096 bytes long and names the IST vectors component; what is read is where the payload starts, its checksum, and the size the walk finds |
| PackageFormat.SizeField | src/vector_manager.cpp:211-245 | any 19 bytes have a size field to speak of, so the next row covers every buffer |
| PackageFormat.AcceptedExactly | src/vector_manager.cpp:211-311 | any bytes at all: more is waited for exactly while a header whose size field says 36 to 4096 is not complete; it is accepted exactly if complete, at least 44 bytes long, of revision 4 or more, with the descriptor in it, and the stored checksum that of all before; and where the payload starts and which checksum it must have |
| PackageFormat.AlteredHeaderIsRejected | src/vector_manager.cpp:287-295 | a written header altered inside 4 consecutive bytes before its checksums, its size field apart, is rejected, whatever follows it |
| PackageFormat.ReaderUndoesSerialiser | src/vector_manager.cpp:211-311 | and without opaque data before the last component that size is the one that was written |
| PackageFormat.WalkReadsVisited | src/vector_manager.cpp:184-200 | the component loop gives the largest location plus size of what it reads as components, or 0 if the header ends first |
| PackageFormat.InStepWithoutOpaqueData | src/vector_manager.cpp:191-197 | what the component loop reads as components is where they were written exactly if none but the last has opaque data |
| PackageFormat.WalkInStep | src/vector_manager.cpp:144-201 | for a written header: the walk is in step exactly if no component but the last has opaque data, and the size it gives is the largest end of what it reads, in step or not |
| PackageFormat.WalkMisreadsOpaqueData | src/vector_manager.cpp:195-197 | an accepted package of two components, the first with one byte of opaque data, whose size of 64 KiB is read as 16 MiB, whatever follows its header |
| UpdateSessions.PeekSession.OnRead | src/vector_manager.cpp:430-480 | a read extends the buffer and finishes the session exactly when the buffer can be judged; nothing after it finished |
| UpdateSessions.PeekSession.OnAbort | src/vector_manager.cpp:437-451 | the end of the stream or the deadline before a judgement is a failure, reported once |
| UpdateSessions.PeekSession.Finish | src/vector_manager.cpp:492-524 | finishing twice reports nothing |
| UpdateSessions.TransferSession.constructor | src/vector_manager.cpp:559-582 | opening truncates the image |
| UpdateSessions.TransferSession.Start | src/vector_manager.cpp:592-610 | of what is buffered, what is behind the header is written and nothing else |
| UpdateSessions.TransferSession.OnRead | src/vector_manager.cpp:709-734 | a chunk is appended to the image and folded into the CRC; a failed write ends the transfer and the image is removed, unless that fails |
| UpdateSessions.TransferSession.OnEnd | src/vector_manager.cpp:716-755 | at the end of the stream the image is committed exactly if the checksum of all that was written is the stored one; what is on disk then is what the close flushed, and otherwise nothing unless the removal fails |
| UpdateSessions.TransferSession.OnTimeout | src/vector_manager.cpp:757-768 | a timeout ends the transfer and the image is removed, unless that fails; after the end it does nothing |
| UpdateSessions.TransferSession.OnProgressTick | src/vector_manager.cpp:662-694 | reports are values from 1 to 99 that rise strictly, by declared size or as a heartbeat |
| UpdateSessions.TransferSession.WritePayload | src/vector_manager.cpp:615-628 | what was handed to the stream, running CRC and byte count stay those of the payload so far |
| UpdateSessions.TransferSession.VerifyAndFinish | src/vector_manager.cpp:736-755 | committed exactly if the checksum matches, before the close whose flush is not looked at |
| UpdateSessions.TransferSession.Finish | src/vector_manager.cpp:786-801 | the stream is closed, which keeps all of the image or its first bytes, and an uncommitted image is removed unless that fails; finishing twice changes nothing |
| UpdateSessions.OnDisk | src/vector_manager.cpp:770-784 | what is on disk after the close is a prefix of what was written, and all of it exactly if it was flushed |
| UpdateSessions.Peek | src/vector_manager.cpp:417-480 | however the stream is cut, the session stops at the first prefix that can be judged and says what that prefix says |
| UpdateSessions.Receive | src/vector_manager.cpp:592-755 | however the rest is cut, the image is the whole payload if its checksum matches and absent otherwise |
| UpdateSessions.Upload | src/vector_manager.cpp:1115-1186 | for every cut of every stream, peek and transfer together leave the image that the whole-stream reference gives |
| UpdateSessions.AlteredPayloadNotCommitted | src/vector_manager.cpp:736-754 | behind an accepted header, the intended payload is committed and one altered inside 32 consecutive bits is not |
| UpdateReference.MoreReceived | src/vector_manager.cpp:453-479 | behind an accepted header every byte that comes is payload |
| UpdateReference.TickIsTruthful | src/vector_manager.cpp:662-694 | a tick leaves the last report what it should be: the share of the declared size that has come, 99 at most, or without a declared size the number of reports so far |
| UpdateReference.WholeStream | src/vector_manager.cpp:592-755 | what a whole stream asks for: the old image without an accepted header, and otherwise the payload if it is the one promised, or none |
| UpdateReference.FollowIsSound | src/vector_manager.cpp:852-1198 | each event, in any state, keeps every finished update fair and the one in progress in step with its stream |
| UpdateReference.EveryUpdateIsFair | src/vector_manager.cpp:852-1198 | over every series of events, with ticks, late events and earlier updates interleaved: an update that ended at the end of its stream left the image its whole stream asks for exactly if the flush or the removal it needed worked; it was committed exactly if the stream ended with the payload its header promises; a rejected one left the old image; a mounted one is what is on disk, with its golden results; the progress reported rises, and the last report is the share of the declared size that had come at the last tick |
| UpdateReference.MountedWhileWriting | src/vector_manager.cpp:923-1186 | when a transfer starts the vectors are mounted exactly if they were and unmounting them was not permitted, and so for the golden results; both stay as they are until the transfer ends |
| UpdateLaws.MountsExactly | src/vector_manager.cpp:953-1058 | mounting succeeds exactly if both paths are configured, there is an image, no unmount fails and all mounts work; what is mounted then, and what is left if it is stopped before |
| UpdateLaws.MountedBeforeRun | src/vector_manager.cpp:1200-1221 | before a run and at startup the image and its golden results are mounted if the calls work, unless they are there; image, updates and lock stay |
| UpdateLaws.RequestAccepted | src/vector_manager.cpp:852-904 | an update is accepted exactly if none is in progress, there is a place for the image, a descriptor, and it is to be applied at once; otherwise nothing changes |
| UpdateLaws.NothingToDo | src/vector_manager.cpp:852-1198 | without an update in progress only mounting and requests do anything |
| UpdateLaws.PeekEndsExactly | src/vector_manager.cpp:1115-1126 | before the header is judged, an abort ends the update as rejected with image and mounts kept, and of the other events only a read does anything |
| UpdateLaws.TransferStartsExactly | src/vector_manager.cpp:1115-1186 | a read starts a transfer exactly if the header is accepted with it, no unmount fails, the image file opens and the payload that came with it is written; the image is that payload |
| UpdateLaws.TransferDoesNotStart | src/vector_manager.cpp:1115-1186 | otherwise the judged update ends: rejected with the image that was there, or failed with the image removed unless that fails |
| UpdateLaws.TransferEndsExactly | src/vector_manager.cpp:592-755 | the end of the stream, the deadline and a failed write end a transfer and nothing else does; a read that is written makes the image longer by what was read |
| UpdateLaws.MountedExactly | src/vector_manager.cpp:906-921 | a transfer ends mounted exactly if the stream ended, the checksum of its payload is the one in the header and mounting works |
| UpdateLaws.TickCounts | src/vector_manager.cpp:662-694 | a tick counts all bytes so far, reports nothing without new ones and at most one value; without a declared size it reports whenever there are new ones, up to 99 times |
| UpdateLaws.WrittenPackageUploads | src/vector_manager.cpp:592-755 | a written package with a good header leaves its payload as the image if the checksum in the header is that of the payload, and no image otherwise |
| UpdateLaws.AlteredHeaderKeepsImage | src/vector_manager.cpp:287-295 | a stream whose header was altered so leaves the image that was there |
| UpdateLaws.AlteredHeaderEndsUpdate | src/vector_manager.cpp:1115-1131 | and the update that receives it ends with image and mounts as they were |
| UpdateWitnesses.ShortImageIsMounted | src/vector_manager.cpp:736-784 | a series of events with a flush that keeps nothing, which ends with an empty image mounted though the payload matched its checksum |
| UpdateWitnesses.MountedImageIsOverwritten | src/vector_manager.cpp:923-951 | a series of events with an unmount that is not permitted, after which the image is emptied while it is mounted |
| VectorManager.VectorManager.TeardownMounts | src/vector_manager.cpp:923-951 | the golden results and the vectors are each unmounted, the one whatever became of the other: success unless an unmount fails for another reason than that nothing is mounted or it is not permitted; and what is left mounted |
| VectorManager.VectorManager.MountImages | src/vector_manager.cpp:953-1058 | when it succeeds, and what is mounted after each way to fail: the teardown, no image, the vectors, the golden results, and the undo of the vectors then |
| VectorManager.VectorManager.EnsureMounted | src/vector_manager.cpp:1200-1221 | nothing is touched if the golden results are there; otherwise what is mounted and published, whether the mount works or not |
| VectorManager.VectorManager.MountVectorsOnStartup | src/vector_manager.cpp:844-850 | what is mounted; the version and then Active or Failed are published, Active exactly if the image on disk was mounted |
| VectorManager.VectorManager.StartUpdate | src/vector_manager.cpp:852-904 | the reasons to turn an update down, in order; an accepted one takes the lock and starts a peek |
| VectorManager.VectorManager.OnPeekRead | src/vector_manager.cpp:1115-1186 | does to image, mounts and updates what the reference says of the bytes so far: more is waited for, the update is rejected, or the stream is handed over; late reads change nothing |
| VectorManager.VectorManager.OnPeekAbort | src/vector_manager.cpp:1115-1126 | an aborted peek ends the update as rejected, with the old image; a late one changes nothing |
| VectorManager.VectorManager.OnTransferRead | src/vector_manager.cpp:906-914 | the payload grows by the chunk, or a failed write ends the update, as the reference says; late reads change nothing |
| VectorManager.VectorManager.OnTransferEnd | src/vector_manager.cpp:906-921 | how the update ends at the end of the stream: by the checksum of the whole payload, the flush, and then the mount |
| VectorManager.VectorManager.OnTransferTimeout | src/vector_manager.cpp:906-914 | a timeout ends the update and the image is removed, unless that fails; a late one changes nothing |
| VectorManager.VectorManager.OnProgressTick | src/vector_manager.cpp:1160-1166 | the report of the reference for the bytes received so far is published, if there is one; image, mounts and the transfer stay |
| VectorManager.VectorManager.OnHeaderPeekComplete | src/vector_manager.cpp:1115-1131 | a rejected header leaves image and mounts alone; an accepted one takes the mounts down and hands the stream over |
| VectorManager.VectorManager.OnTeardownComplete | src/vector_manager.cpp:1133-1186 | a transfer starts unless the unmount failed or the image cannot be opened, in which case the update ends with the old image |
| VectorManager.VectorManager.OnTransferComplete | src/vector_manager.cpp:906-921 | 100 is published and the image mounted only after a commit; the version after a mount that works; all that is published, and how the update ends |
| VectorManager.VectorManager.FinishUpdate | src/vector_manager.cpp:1107-1113 | one terminal activation is published, the lock is released and the update is recorded |
| VectorManager.PublishedOnce | src/vector_manager.cpp:906-921 | each finished update published exactly one terminal activation, Active exactly if it ended mounted, and as progress nothing if rejected, and otherwise 0, what its ticks reported, and 100 exactly if its stream ended with the payload promised |
| VectorManager.Dispatch | src/vector_manager.cpp:852-1221 | each event, startup and mounting before a run included, does exactly what the reference says; without an update in progress late events change nothing |
| VectorManager.RunUpdates | src/vector_manager.cpp:852-1198 | over every series of events: between any two, the lock, the sessions, the image, the mounts, the progress reported and the finished updates are those of the reference after the events so far, and every finished update was fair and published a series that fits how it ended |
| CpuDiscovery.OnCpuDiscoveryDone | src/ist_app.cpp:1034-1125 | parsing, sorting, removing duplicates and the gap check give the result that the set of socket numbers determines |
| CpuDiscovery.Sort | src/ist_app.cpp:1078 | sorted, and the same numbers as often |
| CpuDiscovery.Unique | src/ist_app.cpp:1084-1085 | of a sorted list, the same numbers once each, still sorted |
| CpuDiscovery.PathNamesSocket | src/ist_app.cpp:1047-1075 | a path that ends in an underscore and a decimal number that fits the machine word names that socket |
| CpuDiscovery.NamesSocketExactly | src/ist_app.cpp:1047-1075 | a path names a socket exactly if it ends in an underscore and one or more digits whose value fits the machine word |
| CpuDiscovery.SucceedsWhenContiguous | src/ist_app.cpp:1087-1113 | success exactly if there are paths, every one parses, and the numbers are 0 to n - 1 for some n |
| CpuDiscovery.OnlyTheSetMatters | src/ist_app.cpp:1080-1085 | neither the order of the paths nor duplicates change the result |
| CpuDiscovery.ListReadsBack | src/ist_app.cpp:1104-1112 | splitting the list at its commas and reading the parts gives back 0 to n - 1 |
| RunChain.AfterIsNextDue | src/ist_app.cpp:580-780 | the chain goes from each job to the next one that is due: what it passes over is not due |
| RunChain.NextInChain | src/ist_app.cpp:580-898 | the callback an answer leads to is that for the next job of the chain, or for the reset |
| RunChain.NextGoesWell | src/ist_app.cpp:580-898 | the values a callback captures tell exactly whether all went well so far |
| RunChain.NextTells | src/ist_app.cpp:580-898 | an IST_ERROR is told exactly when something goes wrong |
| RunChain.RunBegins | src/ist_app.cpp:968-994 | an accepted run waits for the signature check, with nothing told |
| RunChain.Proceeds | src/ist_app.cpp:580-898 | an answer after which the run goes on keeps it in order: jobs launched once each and exactly if due, each answered as its event said, an IST_ERROR exactly if something went wrong |
| RunChain.Concludes | src/ist_app.cpp:750-898 | an answer after which nothing is waited for leaves a good run: every job due was launched and answered, and status and errors fit |
| RunChain.StandsAsAnswered | src/ist_app.cpp:580-898 | in a finished run each job that was launched was answered by an event of its kind, and went well exactly if that event says so |
| RunChain.CompletedMeaning | src/ist_app.cpp:750-780 | a run completes exactly if the events that answered it say that signatures, discovery if needed, assert, power cycle, CAK if present and inside the hook directory, ITM, deassert and a requested reset went well, whatever the archive |
| RunChain.LaunchedExactly | src/ist_app.cpp:580-1136 | a finished run launched each job exactly if those it builds on were answered well, with the discovery, CAK and reset conditions spelled out |
| RunChain.DeassertedOnce | src/ist_app.cpp:720-748 | the deassert hook is launched exactly once if the boot was asserted and never otherwise, and before the archive that every run makes |
| RunChain.AtMostNine | src/ist_app.cpp:580-898 | a run launches at most nine jobs |
| RunChain.FiledMeaning | src/ist_app.cpp:839-979 | a finished run made one archive, and leaves on file the whole of what was in the results directory then; or if that failed what a failed archive leaves, if it was opened, and otherwise nothing or what was there before, by whether the directory lost its archive when the run began |
| RunChain.RenewalDecides | src/ist_app.cpp:839-979 | what was on file before a run does not matter if the directory lost its archive when the run began or the run opened one; and otherwise it is on file still |
| IstService.IstService.StartIst | src/ist_app.cpp:904-994 | busy exactly during a run or an update; accepted exactly if the parameters are valid, a key is there if the service is initialized, collateral and storage are in order and both boot hooks are set; otherwise the error, status and IST_ERROR of the first of these that fails |
| IstService.IstService.TryStart | src/ist_app.cpp:918-994 | the image is mounted first; then the run is turned down for the first reason that applies, or accepted; the run invariant is kept |
| IstService.IstService.PrepareRun | src/ist_app.cpp:920-966 | the checks before a run is accepted: accepted exactly if all hold, and otherwise the error, status and IST_ERROR of the first that fails |
| IstService.IstService.AcceptRun | src/ist_app.cpp:968-994 | an accepted run starts with an emptied results directory, unless removing the earlier archive fails, with its log open if it can be opened, goes down in the books and waits for the signature check |
| IstService.IstService.TransitionToWith | src/ist_app.cpp:169-184 | idle goes with a final status, closes the service log, and emits an IST_ERROR unless the run completed |
| IstService.IstService.OnSignatureVerifyDone | src/ist_app.cpp:996-1032 | a rejected signature fails the run with its IST_ERROR; otherwise discovery comes next exactly if no socket list was given and there is a discoverer, as the table of moves has it |
| IstService.IstService.OnCpuDiscoveryDone | src/ist_app.cpp:1034-1125 | each failure of discovery has its IST_ERROR and fails the run; success sets the socket list and leads to the boot assert, as the table of moves has it |
| IstService.IstService.LaunchBootAssert | src/ist_app.cpp:1127-1136 | the callback of the boot assert is handed out, in the stage that goes with it |
| IstService.IstService.OnIstBootAssertDone | src/ist_app.cpp:580-636 | a failed assert resets the progress and fails the run with its IST_ERROR, otherwise the power cycle comes next, as the table of moves has it |
| IstService.IstService.OnPowerCycleDone | src/ist_app.cpp:638-688 | what comes next and what is told when there was no power cycle, and with the CAK script absent, inside or outside the hook directory, as the table of moves has it |
| IstService.IstService.OnCakDone | src/ist_app.cpp:670-683 | a failed script leads to cleanup with its IST_ERROR, otherwise ITM comes next, as the table of moves has it |
| IstService.IstService.StartItmRun | src/ist_app.cpp:690-718 | the callback of ITM is handed out, in the stage that goes with it, and ITM is launched on what is mounted then |
| IstService.IstService.OnItmDone | src/ist_app.cpp:696-713 | every exit code leads to cleanup, which keeps it, and every one but 0 to the IST_ERROR for it, as the table of moves has it |
| IstService.IstService.RunIstCleanup | src/ist_app.cpp:720-748 | all collected failures are emitted once, in order, and the deassert hook comes next with the exit code kept |
| IstService.IstService.OnDeassertDone | src/ist_app.cpp:839-864 | a failed deassert is told, and the log is closed before the archive session starts, as the table of moves has it |
| IstService.IstService.FailRunWithArchive | src/ist_app.cpp:866-884 | a run that fails before the boot was asserted tells so, closes its log and goes to its archive, without a deassert |
| IstService.IstService.OnFailArchiveDone | src/ist_app.cpp:874-883 | the run ends as failed, whatever the archive |
| IstService.IstService.OnArchiveDone | src/ist_app.cpp:750-780 | a reset comes next exactly if the deassert worked, one was asked for and there is a hook; otherwise the run ends, as completed exactly if the deassert worked, no reset was asked for and ITM exited with 0 |
| IstService.IstService.OnResetDone | src/ist_app.cpp:886-898 | the run ends, as completed exactly if the reset worked and ITM exited with 0 |
| IstService.IstService.Call | src/ist_app.cpp:580-1032 | whichever callback is called, state, published stage, IST_ERRORs and the next callback are those of the table of moves, and the archive is what its session leaves |
| IstService.IstService.CallBack | src/ist_app.cpp:580-1032 | calling the outstanding callback keeps the run invariant and brings the run strictly nearer to its end, or ends it with a good record |
| IstService.IstService.OnCompletion | src/ist_app.cpp:580-1032 | an event that is waited for makes its step of the run; any other changes nothing, but for the progress of ITM |
| IstService.IstService.StartUpdate | src/vector_manager.cpp:1227-1245 | an update is turned down during a run, and the reasons to turn one down otherwise, in order |
| IstService.IstService.GetResultsFd | src/ist_results.cpp:402-447 | results are given out exactly if the service is idle, an archive is there and readable and at most 50 MiB long; busy exactly during a run; not found exactly if there is none |
| IstService.RunService | src/ist_app.cpp:904-1136 | over every series of events each does what it should: an answer lowers the rank strictly, a run starts exactly if asked for while there is no run and no update and no check fails, an update is in progress exactly if the reference of the vector store says so; one callback outstanding exactly during a run; the log closed while it is archived; all finished runs good, made of exactly the events that started them or were waited for, ended as shown, with ITM launched on what was mounted when their collateral was checked; a request for results answered from the archive, which at every moment is what the events of the runs so far left on file |
| IstService.EachStartsExactly | src/ist_app.cpp:904-994 | over every series of events: when there is no run and no update, a request starts a run exactly if the parameters are valid, a key is there if needed, collateral and storage are in order and both boot hooks are set |
| IstService.StepsReachStore | src/vector_manager.cpp:852-1245 | every step of an update in progress does to the vector store what the reference says, and so does a request that is passed on and the mounting before a run |
| IstService.LatestRunOnFile | src/ist_app.cpp:839-979 | between runs the archive is what the latest run that has ended leaves on file, and the earlier ones do not matter if the directory lost its archive for that run or its session opened one |
| IstService.StoreRestsInRun | src/ist_app.cpp:904-920 | from the acceptance of a run to its end the image, the mounts and the updates stay as they are, whatever events come |
| IstService.RunEnds | src/ist_app.cpp:580-1136 | a run is over after at most as many answers as it has left, which are nine at the most |
| HookRunner.HookProcess.OnTimeout | src/hook_runner.cpp:102-131 | SIGTERM is sent exactly if the hook has not exited |
| HookRunner.HookProcess.OnGraceExpired | src/hook_runner.cpp:133-146 | SIGKILL is sent exactly if the hook has not exited |
| HookRunner.HookProcess.OnExit | src/hook_runner.cpp:148-188 | success exactly if the exit is 0, without error and without timeout; reported at once if the output has drained |
| HookRunner.HookProcess.OnDrainTimeout | src/hook_runner.cpp:190-196 | the wait for output is given up, and completion reported unless it was |
| HookRunner.HookProcess.OnDrained | src/hook_runner.cpp:235-239 | completion is reported if the hook has exited and it was not reported |
| HookRunner.HookProcess.Finish | src/hook_runner.cpp:200-218 | reports once, when exited and drained |
| HookRunner.Runner.AsyncRun | src/hook_runner.cpp:271-328 | fails at once exactly if the pipe or the process cannot be made; no process that has yet to report is let go |
| HookRunner.RunHook | src/hook_runner.cpp:102-239 | every interleaving: told to stop exactly if a deadline finds it running, killed exactly if the grace timer then does, output given up exactly if the drain timer fires after the exit; it reports, once and with the right result, exactly if it has exited and its output has ended or been given up; no signal after the exit |
| ItmRunner.ProgressPoller.Stop | src/itm_runner.cpp:69-74 | polling stops and the file is read one last time |
| ItmRunner.ProgressPoller.Report | src/itm_runner.cpp:112-119 | only a value that is new is reported |
| ItmRunner.ProgressPoller.Poll | src/itm_runner.cpp:127-165 | a poll asks the worker, or is put off if there is no pipe; none once stopped |
| ItmRunner.ProgressPoller.OnReply | src/itm_runner.cpp:146-157 | a reply reports what is new and schedules the next poll; ignored once stopped |
| ItmRunner.PolledGrows | src/itm_runner.cpp:67-165 | nothing reported is taken back, and polling is over exactly once the child has exited |
| ItmRunner.ReadingIsReported | src/itm_runner.cpp:112-187 | an awaited reply before the exit, and the reading at the exit, leave their reading the last one reported; until the exit polling goes on unless a reply fails, and the timer asks the worker if there is a pipe |
| ItmRunner.ReportedWereRead | src/itm_runner.cpp:67-187 | every progress reported was read, by a reply or at an exit, is at most 100 and differs from the one before |
| ItmRunner.ItmProcess.OnDeadlineExpired | src/itm_runner.cpp:270-283 | the child is killed exactly if it has not exited |
| ItmRunner.ItmProcess.OnProcessExit | src/itm_runner.cpp:285-328 | the last progress precedes the exit; the code is -2 after a timeout, -1 after an error, the exit status otherwise |
| ItmRunner.ItmProcess.OnDrainTimeout | src/itm_runner.cpp:330-335 | the wait for output is given up, and completion reported unless it was |
| ItmRunner.ItmProcess.OnOutputEnd | src/itm_runner.cpp:524-529 | the end of the output is noticed once; completion is reported if the child has exited and it was not reported |
| ItmRunner.ItmProcess.OnChunk | include/ist_logging.hpp:274-282 | what the kernel takes of a chunk goes to the log while it is open; reading goes on after that |
| ItmRunner.ItmProcess.Finish | src/itm_runner.cpp:339-353 | reports once, when exited and drained, with the log closed first |
| ItmRunner.Runner.AsyncRun | src/itm_runner.cpp:438-534 | every early exit reports -1 with the log closed |
| ItmRunner.RunItm | src/itm_runner.cpp:270-353 | every interleaving: killed exactly if a deadline finds it running, output given up exactly if the drain timer fires after the exit; it reports, once and with the right code, exactly if it has exited and its output has ended or been given up; no signal and no progress after the exit; the progress reported is exactly what polling leads to; the log is open until completion, and holds exactly what the kernel took of the output until it ended or was given up |
| ItmRunner.LogIsWhole | src/itm_runner.cpp:330-353 | if every write is taken, the log holds all of the output exactly if none comes after the drain timer gave up on it |
| RunLog.WriteAll | include/ist_logging.hpp:94-113 | what is written is what the answers of the kernel let through; true exactly if that is all, and always if the kernel keeps taking bytes |
| RunLog.TakenExactly | include/ist_logging.hpp:94-113 | what is written is as much as the calls before the first failing one take, and everything if that is enough or none fails |
| RunLog.LogFile.Open | include/ist_logging.hpp:120-132 | opening truncates; a failed open leaves the file closed |
| RunLog.LogFile.Write | include/ist_logging.hpp:134-144 | appends what the kernel takes to an open file, silent on a closed one |
| RunLog.LogFile.Close | include/ist_logging.hpp:146-149 | a closed file keeps its content |
| RunLog.OutputTee.OnChunk | include/ist_logging.hpp:274-282 | what the kernel takes of a chunk is appended to the log |
| RunLog.OutputTee.OnEof | include/ist_logging.hpp:284-291 | the end-of-output handler is called once |
| PowerMonitor.HostPowerMonitor.OnStateChanged | src/host_power_monitor.cpp:153-171 | keeps the outcome that of the observations so far |
| PowerMonitor.HostPowerMonitor.OnDeadline | src/host_power_monitor.cpp:80-96 | keeps the outcome that of the observations so far |
| PowerMonitor.HostPowerMonitor.Finish | src/host_power_monitor.cpp:173-184 | reports once |
| PowerMonitor.WaitForPowerCycle | src/host_power_monitor.cpp:57-184 | over every series of states and timer events, late ones included, the wait reports what the first deciding event says, or nothing |
| PowerMonitor.OutcomeMeaning | src/host_power_monitor.cpp:153-184 | it reports at most once, and true exactly if an Off is followed by an On with no timer event before that |
| Results.CollectResultFiles | src/ist_results.cpp:47-65 | exactly the regular files in the listing but ist_results.tar.gz, in listing order |
| Results.ArchiveWriter.Open | src/ist_results.cpp:95-113 | opening starts an empty archive; a failed open touches nothing |
| Results.ArchiveWriter.BeginEntry | src/ist_results.cpp:115-153 | an entry is begun exactly if stat, header and open work; otherwise the archive has failed |
| Results.ArchiveWriter.PumpBlock | src/ist_results.cpp:162-185 | what was copied and what is left stay the file; a whole file becomes a whole entry |
| Results.TransfersUnlessFailing | src/ist_results.cpp:155-185 | a file gets through if no read and no write fails, and not if one fails before blocks enough for all of it |
| Results.ArchiveWriter.Finish | src/ist_results.cpp:187-210 | a good archive is closed; a failed one is removed, and if that fails what was flushed of it stays |
| Results.ArchiveWriter.Drop | src/ist_results.cpp:76-88 | an archive that was opened and not finished well is removed again, if that works; any other is left alone |
| Results.ArchiveResults | src/ist_results.cpp:222-263 | the blocking loop returns the result and leaves the directory that the reference gives |
| Results.ArchiveSession.Step | src/ist_results.cpp:295-365 | a turn keeps the session on the way to the reference and brings it nearer to its end; after the end it does nothing |
| Results.ArchiveSession.StartArchive | src/ist_results.cpp:305-323 | the first turn lists the files and opens the archive |
| Results.ArchiveSession.OpenEntry | src/ist_results.cpp:325-340 | a turn begins the entry of the next file |
| Results.ArchiveSession.CopyBlock | src/ist_results.cpp:342-365 | a turn copies one block, or removes the file that is whole in the archive |
| Results.ArchiveSession.Finish | src/ist_results.cpp:367-380 | reports once; again, it changes nothing |
| Results.ArchiveSession.Conserves | src/ist_results.cpp:354-364 | before the end each collected file is on disk or whole in the archive |
| Results.RunArchiveSession | src/ist_results.cpp:295-380 | for every series of system-call answers the stepped session ends within a bound, with the result and the directory of the reference, and no file is lost between any two turns before the end |
| Results.ArchiveBothWays | src/ist_results.cpp:222-380 | the blocking and the stepped form agree |
| Results.OutcomeMeaning | src/ist_results.cpp:222-263 | success exactly if there are files and every call works, and then the archive holds every collected file in order; failure before the archive was opened leaves the earlier one; failure after that leaves none exactly if one of the two removals works, and otherwise one with no more than the files taken; nothing else changes |
| Results.LostWhenFailingLate | src/ist_results.cpp:200-207 | collected files are lost exactly if archiving fails after one of them was archived and removed, unless the archive could not be removed and that file was flushed to it |
| Results.LosesFirstFile | src/ist_results.cpp:200-207 | an input for which a file is lost, whatever was on file |
| Results.LeavesTornArchive | src/ist_results.cpp:203-207 | an input after which a failed archive stays: the close and both removals fail |
| SignatureVerify.CollectFilesToVerify | src/signature_verify.cpp:291-416 | something to check is missing exactly if it is for the reference; the targets, the real paths that are checked and the links are complete |
| SignatureVerify.SkippedExactly | src/signature_verify.cpp:355-358 | the entries skipped as signatures are those whose name is at least one character and then ".sig" |
| SignatureVerify.PassesExactly | src/signature_verify.cpp:291-474 | an installation passes exactly if there is a key, the binary has an accepted signature beside it, the library directory can be read if there is one, and of its entries not named as signatures none is unreadable, each file has an accepted signature beside it, and each link leads to the binary or to such a file |
| SignatureVerify.SignatureNeedsNone | src/signature_verify.cpp:355-358 | an entry named as a signature, whatever it is, changes nothing about whether an installation passes |
| SignatureVerify.SymlinksWithinVerifiedSet | src/signature_verify.cpp:420-446 | true exactly if every link resolves to a real path that is checked |
| SignatureVerify.FileVerifier.Init | src/signature_verify.cpp:149-208 | a verification starts exactly if the key, the signature and the file can be read |
| SignatureVerify.FileVerifier.PumpBlock | src/signature_verify.cpp:217-248 | for any block size, a block is digested, or refused if the crypto library does not take it, or the verdict is given at the end of the file; what was digested and what is left stay the file |
| SignatureVerify.VerifyFileSignature | src/signature_verify.cpp:258-273 | true exactly if the signature of the whole file is accepted and the crypto library takes every block |
| SignatureVerify.VerifyItmSignatures | src/signature_verify.cpp:459-474 | the blocking form says yes exactly to an installation that passes, if the crypto library takes every block of its files |
| SignatureVerify.SignatureVerifySession.Step | src/signature_verify.cpp:507-564 | a turn keeps the session on the way to the reference and brings it nearer to its end; after the end it does nothing |
| SignatureVerify.SignatureVerifySession.Finish | src/signature_verify.cpp:566-578 | reports once |
| SignatureVerify.RunSession | src/signature_verify.cpp:478-590 | for any block size and any answers of the crypto library the stepped form ends within a bound, and says yes exactly to an installation that passes, if every block of its files is taken |
| SignatureVerify.VerifyBothWays | src/signature_verify.cpp:459-590 | given the same answers of the crypto library, the two forms agree if they read blocks of the same size or every block is taken; neither says yes to an installation that does not pass |
| SignatureVerify.NothingUnsigned | src/signature_verify.cpp:418-446 | in an installation that passes, the binary and every file and link of the library directory not named as a signature has content that a signature was accepted for |
| WholeRun.HookReportIsFinal | src/hook_runner.cpp:148-218 | what a hook reports is still true at the end of all that happens to it |
| WholeRun.RunTheHook | src/hook_runner.cpp:102-328 | a hook reports exactly if it cannot be started, or exits and its output ends or is given up; success exactly if its first exit is 0 and no deadline found it running |
| WholeRun.ItmReportIsFinal | src/itm_runner.cpp:285-353 | and the code that ITM reports is the one its exit and a deadline before it give |
| WholeRun.RunTheItm | src/itm_runner.cpp:270-534 | ITM reports exactly if it cannot be started, or exits and its output ends or is given up; with -1 if it was not started, -2 if a deadline fired before its first exit, -1 if that exit was an error, and its status otherwise; its log is closed then, and holds exactly what the kernel took of its output until it ended or was given up |
| WholeRun.WaitForHost | src/host_power_monitor.cpp:57-184 | the wait reports exactly if some event decides it, and success exactly for an Off and then an On before any deadline |
| WholeRun.Perform | src/ist_app.cpp:580-1136 | each job reports exactly as what happens to its child, session or wait says; no job but ITM touches the log of ITM |
| WholeRun.CompletesIfAllWorks | src/ist_app.cpp:580-898 | a run that was answered so completes exactly if all it needed went well: accepted signatures with every block taken, discovery, hooks that exit with 0 in time, the power cycle, ITM code 0, and a reset if one was asked for |
| WholeRun.ItmWorksExactly | src/itm_runner.cpp:285-328 | ITM goes well exactly if it is started and its first exit is without error, with 0, and before any deadline |
| WholeRun.CompletedWithItm | src/ist_app.cpp:694-713 | in a run that completes ITM was started, and its first exit was without error, with 0, and before any deadline |
| WholeRun.PlayJobs | src/ist_app.cpp:580-898 | an accepted run ends, or waits for a job that never reports; what it heard is what became of the jobs it launched; the log of ITM, the same file throughout, is closed and holds what was logged of its output when the archive is made |
| WholeRun.PlayRun | src/ist_app.cpp:580-1136 | one run with all that it launches: accepted exactly if parameters, key, collateral, storage and boot hooks are in order; then it waits for a job that never reports, or ends, and completes exactly if all it needed went well; when the archive is made the log of ITM is closed and holds what was logged of its output |

## Left out

- PackageFormat.WalkUndoesSerialiser: for packages without opaque data before the last component. The walk steps over the length of opaque data but not over the data; `WalkInStep` gives the exact condition under which it reads components where they are, and `WalkMisreadsOpaqueData` a package whose size it gets wrong.
- PackageFormat.ReaderUndoesSerialiser: the same restriction; the writer writes no downstream records, which the walk rejects.
- UpdateSessions.Upload: the streams are those without a timeout or a failing call; `UpdateReference.EveryUpdateIsFair` and `VectorManager.RunUpdates` say what these do to an update.
- UpdateSessions.TransferSession.OnProgressTick: the product of bytes received and 99 is not cut to 64 bits, which a stream would reach only after about 10^17 bytes.
- VectorManager.VectorManager.MountImages: the calls made for each of the two mounts (directory, loop device, mount) are one answer, since it does not matter which of them fails; and a mount over one that could not be taken down hides it, so what is under it is not kept.
- VectorManager.RunUpdates: what is mounted is what was on disk when it was mounted; how a file system shows an image that is overwritten under it is not modelled.
- PowerMonitor.WaitForPowerCycle: each wait is on its own; a handler of an earlier wait that is still queued when the next wait starts is not modelled.
- HookRunner.RunHook: the output of a hook is not followed into the service log; `ItmRunner` does this for the ITM log.
- IstService.RunService: the jobs of a run are events here; `WholeRun.PlayRun` plays them with the children and sessions, for one run and without an update beside it. What is in the results directory when its archive is made is part of the event.
- IstService.IstService.StartIst: parameter parsing, the collateral checks and the configuration are given by their outcome.
- SignatureVerify.RunSession: the files do not change while they are checked; a read error in the middle of a file looks like its end, and setting up the digest does not fail.
- CpuDiscovery.Sort: the library sort is an insertion sort here.
- The file system, the kernel, D-Bus, shared-memory telemetry, log texts, the event log, the version string and the error markers: outcomes of calls are parameters and only what is published is kept.
- ECDSA, gzip, tar and base64: the crypto library is an arbitrary function of message and signature, and an archive is a list of named contents.
- Wall-clock time: a timer is an event that may come at any moment after it was set, and once after it was cancelled. The timer that repeats the stage signal has no effect on anything stated here.
- The startup run of the deassert hook: it reports to nothing.
