# Verified models of the RO launcher's core

This project models the parts of the launcher that coordinate processes, files and byte streams,
and proves what they promise for every run, every crash point and every input.

* **Operation guards** (`OperationLock`): several processes, each with a registry of readers and a
  writer per key and one POSIX record lock per key, acquiring, failing, dropping guards and dying.
* **Session sidecar `ro-sessiond`**: the process tree below it (`ProcessTree`), its tables and event
  log (`SessionTables`), its handlers, timed shutdown and main loop (`SessionModel`, `SessionSafety`,
  `SessionRuns`, `SessionTiming`, `SessionAnswers`,
  `Supervisor`), the bounded request reader (`LineReader`) and the splitter of runner
  output (`OutputForwarder`), both against one definition of lines and of
  UTF-8 (`ByteLines`, `Utf8`).
* **Client registry** (`ClientRegistry`, `ClientLaws`) and the launcher's view of it (`ClientStore`).
* **Crash-safe JSON store**: a disk that loses power (`CrashDisk`), the store (`JsonStore`,
  `JsonFile`), its runs (`JsonRuns`, `JsonRecovery`, `JsonAnswers`) and where its promises end (`JsonLimits`).
* **Scans** (`MemoryScan`, `Glob`): fast forms against simple ones.
* **Parsers and printers** (`LaunchTemplate`, `LaunchArguments`, `DosPath`) and the identity of
  prefixes (`FileTree`, `PrefixIdentity`).

State that the source changes in place is a class whose methods are proved equal to functions on the
abstract state; the properties are lemmas about those functions and about runs of them. Where the
system decides something (pids, clock, scheduling, short reads, errors, deaths), the decision is a
parameter, so a theorem holds for every way it can go. `dafny verify dfyconfig.toml` checks everything.

## What the proofs found

* A read that fails while an over-long request is being discarded forgets the discard: the rest of
  that line is taken for a request (`BlockedDiscardExample`). Reading is exact precisely when no gap is
  lossy in this way (`ReadingIsExactIffLossless`). The length checks at lines 95, 105 and 134 of
  `crates/ro-sessiond/src/protocol.rs` can never fire.
* A save over a damaged primary copies the damage onto the good backup, so a death before the rename
  leaves nothing to load (`SaveIsSafeIffPrimaryLoads`). A good primary that the system fails to read is
  replaced by the backup, and one that it fails to see is answered with the default value
  (`LoadsReadIffBearable`). A value whose save failed only at the directory sync can be loaded and later
  vanish; it survives exactly if the save reported success or nothing else was left to come back
  (`SavedValueSurvivesIff`, `UnacknowledgedSaveCanBeReadAndLost`).
* The two seconds before SIGKILL run from the clock reading on which SIGTERM was decided, not from the
  signal: a pause between the two shortens them (`KillCanFollowSooner`, `DistanceKeptIff`).
* Runner output is decoded piece by piece, so a character across a multiple of 64 KiB of its line is
  replaced in the log (`NothingIsReplacedIff`, `SplitCharacterIsReplaced`).
* The Rust and TypeScript validators of argument lists differ on arguments that only JavaScript calls
  blank, such as a lone byte order mark (`ValidatorsAgreeExceptOnBlanks`, `ByteOrderMarkExample`).
* A Unix path that starts with `/:` is taken for DOS input by the test at line 104 of
  `src-tauri/src/utils/runner.rs` and refused (`SlashInput`, `UnixTranslatesIff`).
* The fallback for a missing shutdown deadline (line 333 of `crates/ro-sessiond/src/supervisor.rs`), the
  saturating decrement at line 290 and the missing-record default at line 288 are never needed.

## Model

| member | source | states |
|---|---|---|
| `OperationLock.OperationRegistry.TakeRecordLock` | src-tauri/src/utils/operation_lock.rs:181-214 | open and lock one file, closing it on failure; no other process's locks change |
| `OperationLock.OperationRegistry.Acquire` | src-tauri/src/utils/operation_lock.rs:106-160 | one acquisition updates registry and kernel as the specification says, error paths included |
| `OperationLock.OperationRegistry.Drop` | src-tauri/src/utils/operation_lock.rs:216-236 | dropping a guard; the last one of a key takes entry, descriptor and record lock along |
| `OperationLock.FailedAcquireChangesNothing` | src-tauri/src/utils/operation_lock.rs:106-160 | a refused or failed acquire leaves every registry and every lock as it was, although closing a descriptor drops the process's locks on that file |
| `OperationLock.StepKeepsInv` | src-tauri/src/utils/operation_lock.rs:106-236 | every acquire, drop, fork, start and death keeps registries, descriptors and record locks in agreement and locks compatible across processes |
| `OperationLock.RunKeepsInv` | src-tauri/src/utils/operation_lock.rs:106-236 | the same for every run |
| `OperationLock.ExclusiveIsAlone` | src-tauri/src/utils/operation_lock.rs:56-104 | in every run an exclusive guard on a key is the only guard on that key in any process |
| `OperationLock.RegistryCountsLiveGuards` | src-tauri/src/utils/operation_lock.rs:106-236 | in every run an entry counts exactly the live guards, exists only while there are some, and holds one record lock of the matching mode |
| `OperationLock.GrantedExactlyWhenFree` | src-tauri/src/utils/operation_lock.rs:106-160 | when the system calls work, an acquire succeeds exactly if no live guard anywhere excludes it |
| `OperationLock.BlockedIsExcluded` | src-tauri/src/utils/operation_lock.rs:106-160 | what one process sees (its entry or a contended lock) is exactly whether some live guard anywhere excludes the request |
| `ProcessTree.WaitKeeps` | crates/ro-sessiond/src/process.rs:427-456 | waitpid takes away only the child it reports, and ECHILD means that no process at all is left below the sidecar |
| `ProcessTree.SomebodyIsAChild` | crates/ro-sessiond/src/supervisor.rs:325-331 | as long as any descendant exists, the sidecar, a subreaper, has a child of its own |
| `SessionTables.NeverSaturates` | crates/ro-sessiond/src/supervisor.rs:283-290 | a reaped controller has its record, and the saturating decrement of a launch never meets zero |
| `SessionTables.EnrolAgrees` | crates/ro-sessiond/src/supervisor.rs:169-181 | entering a new controller keeps pids and records one-to-one and the count exact and at most 32 |
| `SessionTables.StrikeAgrees` | crates/ro-sessiond/src/supervisor.rs:277-306 | striking a reaped pid keeps the tables in agreement |
| `SessionTables.ExitLog` | crates/ro-sessiond/src/supervisor.rs:289-298 | the reported exit is the only one of its request, later than its acceptance and with the same pid |
| `SessionModel.ClampGrace` | crates/ro-session-protocol/src/lib.rs:202-204 | the grace lies in 1000..10000 ms and is the requested one if that does |
| `Supervisor.Supervisor.HandleLaunch` | crates/ro-sessiond/src/supervisor.rs:124-194 | the checks in their order, the id being used up before the later ones; both tables updated before the identity is read |
| `Supervisor.Supervisor.HandleShutdown` | crates/ro-sessiond/src/supervisor.rs:196-264 | a request that can be started starts its controller, is accepted, and begins its clamped grace without being forced; one that cannot is forced; others are refused |
| `Supervisor.Supervisor.BeginForcedShutdown` | crates/ro-sessiond/src/supervisor.rs:266-275 | forced, stopping, and a deadline if there was none; nothing when stopped |
| `Supervisor.Supervisor.HandleLine` | crates/ro-sessiond/src/supervisor.rs:106-122 | a second greeting forces the shutdown; other requests go to their handlers |
| `Supervisor.Supervisor.DrainReapEvents` | crates/ro-sessiond/src/supervisor.rs:277-317 | the reap loop is the recursive drain; it keeps the invariant and reports ECHILD only when nobody is left |
| `Supervisor.Supervisor.AdvanceShutdown` | crates/ro-sessiond/src/supervisor.rs:319-356 | drain, escalate, drain again; it keeps the invariant and stops only when nobody is left |
| `Supervisor.Supervisor.SendTermWhenDue` | crates/ro-sessiond/src/supervisor.rs:333-341 | the SIGTERM step, its first clock reading remembered |
| `Supervisor.Supervisor.SendKillWhenDue` | crates/ro-sessiond/src/supervisor.rs:343-348 | the SIGKILL step |
| `Supervisor.Supervisor.RunTurn` | crates/ro-sessiond/src/main.rs:280-339 | one turn of the loop in the source's order; it keeps the invariant and only extends history |
| `Supervisor.Supervisor.RunSession` | crates/ro-sessiond/src/main.rs:276-340 | the loop is the run of the specification; from a sound start it keeps the invariant and history, and once it has returned the session is over: final event once and last, nobody left, tables empty, every exit reported |
| `SessionSafety.DrainKeepsInv` | crates/ro-sessiond/src/supervisor.rs:277-317 | draining keeps the invariant, adds only to the log, and reports ECHILD only when no process is left |
| `SessionSafety.HandleRequestKeeps` | crates/ro-sessiond/src/supervisor.rs:106-264 | every request keeps the invariant and only extends history |
| `SessionSafety.AdvanceShutdownKeeps` | crates/ro-sessiond/src/supervisor.rs:319-356 | every advance keeps the invariant; the supervisor stops only when no process is left |
| `SessionRuns.TickKeeps` | crates/ro-sessiond/src/main.rs:280-339 | every turn keeps the invariant and only extends history |
| `SessionRuns.RunKeeps` | crates/ro-sessiond/src/main.rs:280-339 | so does every run, whatever processes, clock and input do in between |
| `SessionRuns.TablesAgreeInEveryRun` | crates/ro-sessiond/src/supervisor.rs:124-317 | in every run pids and records are one-to-one and children of the sidecar, the count is exact and at most 32, and each request is accepted at most once and exits at most once, later and with the same pid |
| `SessionRuns.LaunchIsAnsweredOnce` | crates/ro-sessiond/src/supervisor.rs:124-194 | a launch is answered by exactly one event naming it, an acceptance exactly if it is admitted; the pid is a new child; a refused id stays used |
| `SessionRuns.NothingSpawnsAfterReady` | crates/ro-sessiond/src/supervisor.rs:129-132 | phases only advance; after Ready nothing is spawned; the shutdown controller is the last process spawned |
| `SessionRuns.StoppedIsFinal` | crates/ro-sessiond/src/main.rs:332-336 | the final event is last and unique; then no process is left, all tables are empty and every accepted launch has had its exit reported before it |
| `SessionRuns.ShutdownSetsDeadline` | crates/ro-sessiond/src/supervisor.rs:215-257 | an accepted shutdown's deadline is the time of its acceptance plus the clamped grace |
| `SessionAnswers.StartableShutdownBegins` | crates/ro-sessiond/src/supervisor.rs:228-257 | from Ready, with a new id, a valid spec and a process, a shutdown is not forced: exactly its controller is spawned and entered, exactly its acceptance is logged, and the deadline is that time plus the clamped grace |
| `SessionAnswers.ShutdownIsAnsweredOnce` | crates/ro-sessiond/src/supervisor.rs:196-264 | a shutdown is answered by exactly one event naming it, an acceptance exactly if it can be started |
| `SessionRuns.FailedShutdownForces` | crates/ro-sessiond/src/supervisor.rs:219-261 | a shutdown that cannot be started gives one error, is forced, and has a deadline two seconds away |
| `SessionAnswers.LaunchTurn` | crates/ro-sessiond/src/main.rs:290-303 | the turn of the loop that hears a launch answers it and spawns its controller exactly if it is admitted; a handler that fails is reported as a protocol error |
| `SessionAnswers.ShutdownTurn` | crates/ro-sessiond/src/main.rs:290-303 | the turn that hears a shutdown answers it and spawns its controller, leaves Ready and sets the deadline exactly if it can be started |
| `SessionAnswers.BegunIsNotForced` | crates/ro-sessiond/src/supervisor.rs:251-257 | that turn leaves the shutdown unforced |
| `SessionAnswers.SecondGreetingForces` | crates/ro-sessiond/src/supervisor.rs:110-114 | a second greeting, in any phase, is reported and forces the shutdown, with SIGTERM in the same turn unless it ends the session |
| `SessionAnswers.UnreadableIsReported` | crates/ro-sessiond/src/main.rs:307-308 | an unreadable line is reported and changes nothing else of the session's course |
| `SessionAnswers.DeafAfterTheEnd` | crates/ro-sessiond/src/main.rs:290-306 | after the end of input nothing is heard any more |
| `SessionTiming.NoSignalBeforeRequestedGrace` | crates/ro-sessiond/src/supervisor.rs:196-264 | end to end: after a turn that hears a shutdown request and leaves Ready, over all later turns, while nothing forces it, every signal comes at or after the acceptance of that request plus its requested grace, clamped |
| `SessionRuns.NoSignalBeforeGrace` | crates/ro-sessiond/src/supervisor.rs:333-341 | in every reachable state that is not forced, every signal came after the accepted shutdown plus the grace in force |
| `SessionRuns.NoKillBeforeTwoSeconds` | crates/ro-sessiond/src/supervisor.rs:343-348 | no SIGKILL sooner than two seconds after the reading on which the first SIGTERM was decided; nor after that SIGTERM itself if it was sent in that instant |
| `SessionTiming.KillCanFollowSooner` | crates/ro-sessiond/src/supervisor.rs:334-347 | for every delay between that reading and SIGTERM some run sends SIGKILL less than two seconds after SIGTERM |
| `SessionTiming.DistanceKeptIff` | crates/ro-sessiond/src/supervisor.rs:333-348 | in every reachable state after SIGTERM: every further SIGKILL of every continuation keeps two seconds from SIGTERM exactly when no time passed between the reading and SIGTERM, or the two seconds are already over, or nobody is left |
| `SessionRuns.FirstTurnPastTheBoundSends` | crates/ro-sessiond/src/supervisor.rs:319-356 | a turn that starts past the bound of a signal sends it or ends the session |
| `SessionRuns.ForcedTurnTerminates` | crates/ro-sessiond/src/main.rs:281-306 | a vanished parent, a SIGTERM, the end of input or a second greeting sends SIGTERM in the same turn or ends the session |
| `SessionAnswers.IdleIsReportedIff` | crates/ro-sessiond/src/main.rs:319-330 | a turn reports Idle exactly if the supervisor is ready, nobody is left, and the turn before was the first to find nobody; the tables are empty then |
| `SessionAnswers.EmptySessionIsIdle` | crates/ro-sessiond/src/main.rs:319-330 | a session without processes reports Idle after two quiet turns, once, and nothing else over any number of turns |
| `SessionAnswers.ReapedIsReported` | crates/ro-sessiond/src/supervisor.rs:280-305 | the exit of a reaped launch is logged next, with the status waitpid gave; of any other child nothing is logged |
| `SessionAnswers.WaitReportsTheStatus` | crates/ro-sessiond/src/process.rs:444-454 | that status is the one the child died with |
| `SessionAnswers.DrainGoesOn` | crates/ro-sessiond/src/supervisor.rs:277-317 | the reap loop ends only at an answer without a child, which it remembers |
| `SessionAnswers.DrainSeesNobodyIff` | crates/ro-sessiond/src/supervisor.rs:307-314 | a drain finds no children exactly if no process is left below the sidecar |
| `SessionAnswers.SignalsReachEverybody` | crates/ro-sessiond/src/supervisor.rs:336-346 | each signal goes to every process below the sidecar when it is sent |
| `SessionAnswers.LaunchIsAcceptedAndReported` | crates/ro-sessiond/src/supervisor.rs:124-317 | some run has exactly the acceptance of a launch and then its exit, with pid and status, in its log, and nobody left |
| `SessionTiming.EmptySessionStops` | crates/ro-sessiond/src/supervisor.rs:325-331 | a session without processes ends, with its final event alone in the log, in the turn in which it is told to |
| `SessionTiming.StubbornChildIsKilled` | crates/ro-sessiond/src/supervisor.rs:336-348 | for every delay before SIGTERM and every pause that makes two seconds from the reading, some run sends SIGTERM and SIGKILL at just those times |
| `LineReader.BoundedLineReader.HasBufferedLine` | crates/ro-sessiond/src/protocol.rs:81-84 | tells whether the buffer holds a complete line |
| `LineReader.BoundedLineReader.DiscardOversizedLine` | crates/ro-sessiond/src/protocol.rs:144-168 | drops exactly the rest of the current line, or loses that state when a read fails |
| `LineReader.BoundedLineReader.ReadLine` | crates/ro-sessiond/src/protocol.rs:86-142 | one call gives the next outcome of the simple reading, whatever the short reads, or the error of the read that failed; the buffer never exceeds the limit plus one byte |
| `LineReader.BoundedLineReader.ReadAll` | crates/ro-sessiond/src/protocol.rs:86-168 | successive calls give exactly the collected outcomes |
| `LineReader.Accounting` | crates/ro-sessiond/src/protocol.rs:86-168 | every over-long line is reported once or lost, and without losses the reading is the meaning of the stream |
| `LineReader.ReadingIsExactIffLossless` | crates/ro-sessiond/src/protocol.rs:86-168 | for every stream and every cutting: the outcomes are the stream's meaning exactly when no gap is lossy, that is, finds more than a message's bytes of a line held back, counted from the line's start or from the last gap that dropped some, while the rest of the line fits |
| `LineReader.FittingStreamIsReadExactly` | crates/ro-sessiond/src/protocol.rs:86-142 | a stream whose lines all fit is read exactly, however it arrives |
| `LineReader.BlockedDiscardExample` | crates/ro-sessiond/src/protocol.rs:144-168 | a cut inside an over-long line that loses its error and yields a false request |
| `ByteLines.SplitRoundTrip` | crates/ro-sessiond/src/process.rs:311-329 | a stream is its lines, each with a newline, and its tail |
| `OutputForwarder.Forwarder.FlushCompleteLines` | crates/ro-sessiond/src/process.rs:317-322 | emits the complete lines of the carry and keeps the rest |
| `OutputForwarder.Forwarder.FlushLongCarry` | crates/ro-sessiond/src/process.rs:323-328 | cuts an over-long carry into continued pieces without changing the open line |
| `OutputForwarder.Forwarder.FlushRunnerCarry` | crates/ro-sessiond/src/process.rs:311-329 | the closed lines grow by exactly the carry's lines; a pending continuation has a non-empty carry; pieces stay bounded |
| `OutputForwarder.Forwarder.Receive` | crates/ro-sessiond/src/process.rs:287-294 | after every chunk the closed lines and the open one are those of the stream so far |
| `OutputForwarder.Forwarder.Forward` | crates/ro-sessiond/src/process.rs:277-339 | for every chunking the emitted pieces make up exactly the stream's lines, are cut only at multiples of the limit and stay bounded; the decoded log has these lines exactly when they are UTF-8 and no cut falls inside a character, for any chunking if no character stands across a multiple of the limit, and for single-byte reads only then |
| `OutputForwarder.NothingIsReplacedIff` | crates/ro-sessiond/src/process.rs:331-339 | the pieces as decoded and written make up the same lines exactly when the lines are UTF-8 and no cut falls inside a character |
| `OutputForwarder.FittingLinesAreCutCleanly` | crates/ro-sessiond/src/process.rs:323-328 | lines in which no character stands across a multiple of the limit are cut cleanly, however they arrive |
| `OutputForwarder.FinestCutsNeedFittingLines` | crates/ro-sessiond/src/process.rs:323-328 | when no piece exceeds the limit, clean cuts mean such lines |
| `OutputForwarder.SplitCharacterIsReplaced` | crates/ro-sessiond/src/process.rs:323-339 | a line too long for one piece with a character across the limit never reaches the log unchanged |
| `Utf8.LossyIsExactIff` | crates/ro-sessiond/src/process.rs:332-332 | lossy decoding returns its input exactly when that is UTF-8 |
| `Utf8.CutIsCleanIff` | crates/ro-sessiond/src/process.rs:323-332 | both sides of a cut are UTF-8 exactly when the whole is and the cut is not inside a character |
| `Utf8.IsUtf8IffEncoded` | crates/ro-sessiond/src/process.rs:332-332 | bytes are UTF-8 exactly if they encode a sequence of Unicode scalar values |
| `Utf8.BadLengthIsLongestStart` | crates/ro-sessiond/src/process.rs:332-332 | what is replaced together is the longest start of a character, or one byte |
| `ClientRegistry.GameProcessHandle.Begin` | src-tauri/src/state/game_process.rs:166-204 | admission, at most one launching client, a fresh generation |
| `ClientRegistry.GameProcessHandle.Promote` | src-tauri/src/state/game_process.rs:206-249 | promotion to a running client, refused for stale or stopped reservations and taken identities |
| `ClientRegistry.GameProcessHandle.SetController` | src-tauri/src/state/game_process.rs:251-278 | controller marking, refused likewise |
| `ClientRegistry.GameProcessHandle.Cancel` | src-tauri/src/state/game_process.rs:280-289 | cancels a launch of its own generation only, never a promoted client |
| `ClientRegistry.GameProcessHandle.CloseIfIdle` | src-tauri/src/state/game_process.rs:302-312 | closes admission only when it is open and nobody is there |
| `ClientRegistry.GameProcessHandle.Reopen` | src-tauri/src/state/game_process.rs:128-136 | reopens admission |
| `ClientRegistry.GameProcessHandle.RequestStop` | src-tauri/src/state/game_process.rs:436-477 | marks the client found and returns exactly the process it runs as and its controller, each once, the game first; an unknown id changes nothing |
| `ClientRegistry.GameProcessHandle.RequestStopAll` | src-tauri/src/state/game_process.rs:479-505 | marks every client and returns exactly the processes they run as and their controllers |
| `ClientRegistry.GameProcessHandle.Handoff` | src-tauri/src/state/game_process.rs:574-611 | compare-and-swap of a running identity |
| `ClientRegistry.GameProcessHandle.FinishClient` | src-tauri/src/state/game_process.rs:613-638 | removes a client of its own generation only |
| `ClientRegistry.StepKeepsInv` | src-tauri/src/state/game_process.rs:166-638 | every operation and guard drop keeps the registry invariant |
| `ClientRegistry.RunKeepsInv` | src-tauri/src/state/game_process.rs:166-638 | the same for every run |
| `ClientRegistry.ReachableRegistry` | src-tauri/src/state/game_process.rs:166-312 | in every run at most one client is launching, ids and running identities are pairwise distinct, and admission is closed exactly while one admission guard lives, with no clients then |
| `ClientRegistry.GenerationsAreFresh` | src-tauri/src/state/game_process.rs:166-204 | generations only grow over a run and are never reused |
| `ClientRegistry.ReservationsAreLocal` | src-tauri/src/state/game_process.rs:280-296 | a reservation touches no other client, a stale one nothing at all, and a pending guard no promoted client |
| `ClientRegistry.SettledRun` | src-tauri/src/state/game_process.rs:206-278 | a stopped client keeps its identities and its mark over every later run, until it is gone |
| `ClientRegistry.StopIsFinal` | src-tauri/src/state/game_process.rs:436-477 | after a stop, over every later run, the client's processes are exactly those returned, the stop is never undone, and promotion, controller marking and handoff are refused |
| `ClientRegistry.StopAllIsFinal` | src-tauri/src/state/game_process.rs:479-505 | the same for every client when all are stopped |
| `ClientLaws.LaunchGrantedIff` | src-tauri/src/state/game_process.rs:166-204 | a launch is granted exactly while admission is open, nobody else is launching and its id is free; it is then the one new client |
| `ClientLaws.PromotionGrantedIff` | src-tauri/src/state/game_process.rs:206-249 | a promotion is granted exactly to a pending launch and a process nobody else runs as; the client then runs as it, with its data and controller kept |
| `ClientLaws.ControllerGrantedIff` | src-tauri/src/state/game_process.rs:251-278 | a controller is noted exactly for a pending launch, which stays pending |
| `ClientLaws.HandoffGrantedIff` | src-tauri/src/state/game_process.rs:574-611 | a handoff is granted exactly if the client runs as the expected process unstopped, nobody is launching and nobody else runs as the replacement; identity and lease change and nothing else |
| `ClientLaws.CancelRemovesLaunch` | src-tauri/src/state/game_process.rs:280-289 | a cancelled launch is gone and everyone else stays |
| `ClientLaws.FinishReports` | src-tauri/src/state/game_process.rs:613-638 | a running client that ends is removed and reported with its data and the number that remain |
| `ClientLaws.AdmissionClosesIff` | src-tauri/src/state/game_process.rs:302-312 | admission closes exactly when it is open and nobody is there, and reopening undoes just that |
| `ClientLaws.StopOneNames` | src-tauri/src/state/game_process.rs:436-477 | a stop marks one client, keeps everyone else, and tells whether it was the only one |
| `ClientLaws.LifeOfAClient` | src-tauri/src/state/game_process.rs:166-638 | from any reachable registry with room, a client reserved, controlled, promoted, handed over, stopped and finished keeps its data, its stop names its last process and its controller, and nothing of it remains |
| `ClientStore.LauncherStore.Set` | src/features/launcher/launcher.store.ts:37-43 | shows exactly the listed clients that are not closed, as often and in the order given |
| `ClientStore.LauncherStore.UpsertClient` | src/features/launcher/launcher.store.ts:44-58 | adds or replaces a client unless it is closed |
| `ClientStore.LauncherStore.RemoveClient` | src/features/launcher/launcher.store.ts:59-64 | removes a client and remembers it as closed |
| `ClientStore.LauncherStore.SetClientStatus` | src/features/launcher/launcher.store.ts:65-71 | changes the status of one client |
| `ClientStore.Census.Ask` | src/features/launcher/refreshGameClients.ts:6-9 | a request remembers its generation and the revision it saw |
| `ClientStore.Census.Answer` | src/features/launcher/refreshGameClients.ts:10-14 | an answer is applied only if both are still current, and then exactly its clients that are not closed are shown |
| `ClientStore.StepKeepsInv` | src/features/launcher/launcher.store.ts:37-71 | every action, question and answer keeps closed clients out of the list and revisions in step |
| `ClientStore.RemovedStaysRemoved` | src/features/launcher/launcher.store.ts:59-64 | over every interleaving with events, updates and late answers, a removed client never comes back |
| `ClientStore.AnswerAppliesToUnchangedStore` | src/features/launcher/refreshGameClients.ts:6-14 | over every run an answer changes the store exactly if it is the newest request and the store is what it was when asked; then exactly the listed clients that are not closed are shown, in their order |
| `ClientStore.UpsertShowsTheClient` | src/features/launcher/launcher.store.ts:44-58 | a client that is not closed takes the place of the first of its id, or the end; a closed one changes nothing |
| `ClientStore.RemoveHidesOnlyTheClient` | src/features/launcher/launcher.store.ts:59-64 | a removed client is hidden and remembered; the others stay in their order |
| `ClientStore.StatusReachesTheClient` | src/features/launcher/launcher.store.ts:65-71 | a status reaches every snapshot of its client and nothing else changes |
| `JsonFile.RecoveringFile.StoreText` | src-tauri/src/utils/json.rs:194-202 | create, write and sync one new file, each step may fail or be the last |
| `JsonFile.RecoveringFile.CopySynced` | src-tauri/src/utils/json.rs:187-192 | copy in place and sync |
| `JsonFile.RecoveringFile.WriteJson` | src-tauri/src/utils/json.rs:123-153 | a write without its rename leaves the primary untouched and reports no success; a success means a durable replacement; without rotation the backup is kept |
| `JsonFile.RecoveringFile.RecoverFromBackup` | src-tauri/src/utils/json.rs:47-63 | reads the backup, sets the damage aside and replaces the primary |
| `JsonFile.RecoveringFile.LoadRecovering` | src-tauri/src/utils/json.rs:25-65 | a missing primary gives the default and a canonical one its value, both unchanged; migrated and recovered cases; with both files damaged nothing changes, and nothing is returned unless the primary could not even be seen |
| `JsonStore.WriteEffect` | src-tauri/src/utils/json.rs:123-153 | a write replaces the primary if its rename is made and otherwise leaves it, and all it may come back to, alone |
| `JsonStore.SaveTakesEffectOrNot` | src-tauri/src/utils/json.rs:123-153 | whatever the primary was, after a save it holds the new value if the rename was made and otherwise what it held before |
| `JsonStore.SuccessIsDurable` | src-tauri/src/utils/json.rs:143-146 | a reported success is durable, whatever was on the disk |
| `JsonStore.SaveIsAtomic` | src-tauri/src/utils/json.rs:123-153 | from a good register a save takes effect at the rename or not at all, and adds no other value to those a crash may bring back |
| `JsonStore.RecoverEffect` | src-tauri/src/utils/json.rs:47-63 | a recovery keeps the backup and leaves the primary alone or replaces it by the backup's value; if it answers, durably |
| `JsonStore.LoadReadsCurrent` | src-tauri/src/utils/json.rs:30-45 | from a primary that is absent or loads, a load gives its value or nothing and keeps it, through migration and bearable failures |
| `JsonStore.LoadReadsRegister` | src-tauri/src/utils/json.rs:30-45 | and a load adds nothing to what a crash may bring back |
| `JsonStore.PowerLossKeepsRegister` | src-tauri/src/utils/json.rs:135-146 | a power loss brings back one of the values a crash may bring back, never garbage |
| `JsonRuns.AtomicRegister` | src-tauri/src/utils/json.rs:25-153 | from a primary that is absent or loads, whatever else is on the disk, every run of valid saves, loads and deaths at any file operation behaves as one variable |
| `JsonRuns.DurableRegister` | src-tauri/src/utils/json.rs:25-153 | with power losses as well, a load gives the last acknowledged value or one that was saved, or tried, since |
| `JsonRuns.AcknowledgedSaveSurvives` | src-tauri/src/utils/json.rs:123-153 | a save that reported success is what every later load gives, through any deaths and power losses |
| `JsonAnswers.ReadValidated` | src-tauri/src/utils/json.rs:67-84 | a file loads exactly if its text parses, decodes and is accepted, and then as that value |
| `JsonAnswers.MissingIsInitial` | src-tauri/src/utils/json.rs:30-35 | a missing primary is answered with the default, and nothing is written |
| `JsonAnswers.CanonicalIsUnchanged` | src-tauri/src/utils/json.rs:37-40 | a canonical primary is answered with its value as unchanged, and nothing is written |
| `JsonAnswers.OtherFormIsMigrated` | src-tauri/src/utils/json.rs:41-45 | a primary in another form is answered with its value as migrated; the primary then has the canonical text, durably, and the backup the old one |
| `JsonAnswers.NothingToLoadIsAnError` | src-tauri/src/utils/json.rs:47-56 | with neither file to load, an error and no change |
| `JsonAnswers.RegisterAnswers` | src-tauri/src/utils/json.rs:25-153 | after every run of saves, loads and deaths, an undisturbed load answers, with what was written last |
| `JsonAnswers.DurableRegisterAnswers` | src-tauri/src/utils/json.rs:25-153 | with power losses as well it answers, with one of the possible values |
| `JsonAnswers.SaveThenLoad` | src-tauri/src/utils/json.rs:86-106 | an undisturbed save reports success and the next undisturbed load answers with its value as unchanged |
| `JsonRecovery.LoadRecovers` | src-tauri/src/utils/json.rs:47-63 | from a damaged primary and a good backup a load, however it ends, keeps the backup and answers only with its value |
| `JsonRecovery.DamagedIsRestorable` | src-tauri/src/utils/json.rs:47-56 | a damaged primary and a loading backup, synced or not, are all that recovery needs |
| `JsonRecovery.RecoveryIsStable` | src-tauri/src/utils/json.rs:47-63 | loads crashed and repeated in any way keep the backup and answer only with its value |
| `JsonRecovery.RecoverySurvivesPowerLoss` | src-tauri/src/utils/json.rs:47-63 | through power losses as well, once damage and backup are on the disk |
| `JsonRecovery.RecoveryIsDurable` | src-tauri/src/utils/json.rs:58-63 | a load that reports a recovery has made the backup's value durable |
| `JsonRecovery.UndisturbedLoadRecovers` | src-tauri/src/utils/json.rs:47-63 | from a damaged primary and a loading backup, a load that nothing disturbs recovers the backup's value, durably |
| `JsonRecovery.RotationKeepsPrevious` | src-tauri/src/utils/json.rs:139-142 | a completed rotating save leaves the previous text in the backup; if it could not see the primary it leaves the backup as it was |
| `JsonRecovery.RecoveryKeepsTheDamage` | src-tauri/src/utils/json.rs:165-178 | a completed recovery leaves the damaged text in the quarantined copy |
| `JsonRecovery.NoTemporaryFileStays` | src-tauri/src/utils/json.rs:149-152 | a write that succeeds, or fails and can clean up, leaves no temporary file |
| `JsonLimits.SaveIsSafeIffPrimaryLoads` | src-tauri/src/utils/json.rs:139-143 | saves that may die anywhere leave the old or the new value loadable exactly when the primary is absent or loads |
| `JsonLimits.LoadsReadIffBearable` | src-tauri/src/utils/json.rs:30-45 | loads that see and read a good primary with given outcomes keep its value and answer with nothing else exactly when an unseen primary holds the initial value and an unread one has no backup with another |
| `JsonLimits.LoadsKeepValueIffBackupAgrees` | src-tauri/src/utils/json.rs:67-75 | loads that may fail anywhere keep a good primary's value exactly when it is absent or the backup offers no other |
| `JsonLimits.SurvivesPowerLossIff` | src-tauri/src/utils/json.rs:143-146 | the current value survives every power loss exactly when the primary can come back to no other |
| `JsonLimits.SavedValueSurvivesIff` | src-tauri/src/utils/json.rs:143-146 | the value of a save that took effect survives every power loss exactly when the save reported success or every version held it already |
| `JsonLimits.UnacknowledgedSaveCanBeReadAndLost` | src-tauri/src/utils/json.rs:143-146 | a save that fails at the last sync is visible and can still be lost |
| `MemoryScan.SearchRegion` | crates/ro-tools-linux/src/proc_memory.rs:326-371 | the chunked search of a region with its carried overlap gives exactly the region's hits in order, or stops at the limit |
| `MemoryScan.FindAllWritableBytes` | crates/ro-tools-linux/src/proc_memory.rs:300-381 | the whole search equals the simple search of every address, with its limit and its error |
| `MemoryScan.SearchIsExact` | crates/ro-tools-linux/src/proc_memory.rs:300-392 | the result is strictly increasing and holds exactly the addresses where the needle stands in consecutive readable chunks of one region |
| `MemoryScan.AllHitsMembers` | crates/ro-tools-linux/src/proc_memory.rs:300-392 | the simple search holds an address exactly if some region has a hit there |
| `MemoryScan.ScanAlignedChunk` | crates/ro-tools-linux/src/proc_memory.rs:416-428 | one chunk gives exactly the aligned places of the value, whatever its start |
| `MemoryScan.ScanRegion` | crates/ro-tools-linux/src/proc_memory.rs:252-280 | a region gives exactly its aligned words in readable chunks, or stops at the limit |
| `MemoryScan.ScanWritableU32` | crates/ro-tools-linux/src/proc_memory.rs:232-288 | the whole word scan equals its simple form |
| `MemoryScan.LittleEndian` | crates/ro-tools-linux/src/proc_memory.rs:246-246 | the four bytes, low byte first, stand for the value |
| `MemoryScan.WordScanIsExact` | crates/ro-tools-linux/src/proc_memory.rs:232-288 | an address is returned exactly if it is aligned and the word there, read low byte first in one readable chunk of a region, has the value; in increasing order when the regions are |
| `MemoryScan.ScansAnswerIff` | crates/ro-tools-linux/src/proc_memory.rs:232-381 | both scans answer unless there is nothing to seek, no region, too much, or nothing readable |
| `MemoryScan.ScansAgree` | crates/ro-tools-linux/src/proc_memory.rs:232-428 | on word-aligned regions in address order the word scan gives exactly the aligned hits of the byte search for the value's bytes, errors included |
| `Glob.GreedyIsEnough` | crates/ro-tools-core/src/domain.rs:96-99 | between two stars the leftmost place of a literal is as good as any |
| `Glob.PresenceGlobMatch` | crates/ro-tools-core/src/presence.rs:338-371 | the loop holds exactly when the text decomposes according to the pattern |
| `Glob.DomainGlobMatch` | crates/ro-tools-core/src/domain.rs:68-103 | for all inputs: equality up to case without stars; otherwise the exact text before the first star and after the last, and between them what the middle of the pattern matches up to case |
| `Glob.DomainMatchesLower` | crates/ro-tools-core/src/domain.rs:40-103 | on lower-case inputs this is what the pattern means, so the two copies agree |
| `Glob.ClientMatchesExe` | crates/ro-tools-core/src/domain.rs:40-52 | holds exactly when some lower-cased pattern matches the lower-cased name |
| `Glob.PresenceMatchesExe` | crates/ro-tools-core/src/presence.rs:75-85 | holds in exactly the same cases |
| `LaunchTemplate.ParseRoundTrip` | src-tauri/src/models/launch.rs:241-275 | parsing loses nothing and every parsed key is valid |
| `LaunchTemplate.PrintParse` | src-tauri/src/models/launch.rs:241-275 | what printable tokens print parses back to these tokens |
| `LaunchTemplate.AcceptedIffPrinted` | src-tauri/src/models/launch.rs:241-275 | an argument is accepted exactly if some printable tokens print it, and these are unique |
| `LaunchTemplate.RenderingIsSubstitution` | src-tauri/src/models/launch.rs:277-302 | rendering succeeds exactly when the template is well formed and its fields have values, and then is one-pass substitution: values are never expanded again |
| `LaunchTemplate.IdentityRendering` | src-tauri/src/models/launch.rs:277-302 | giving each field its own text renders every argument back to itself |
| `LaunchTemplate.TemplateFields` | src-tauri/src/models/launch.rs:241-262 | the cursor loop returns the parsed keys in order, or the parse error |
| `LaunchTemplate.RenderArgument` | src-tauri/src/models/launch.rs:277-302 | the rendering loop |
| `LaunchArguments.ExtractLaunchFields` | src-tauri/src/models/launch.rs:107-125 | accepts exactly the acceptable lists and returns their fields |
| `LaunchArguments.CollectLaunchFields` | src/shared/contracts.ts:269-305 | the TypeScript twin accepts the same lists and returns the same fields |
| `LaunchArguments.FieldsAreDistinctInOrder` | src-tauri/src/models/launch.rs:107-125 | at most 16 fields, all and only those used, without duplicates, in order of first use |
| `LaunchArguments.ValidateArgumentList` | src-tauri/src/models/launch.rs:154-193 | accepts exactly the lists within count, length, blank and control-character rules whose templates are acceptable |
| `LaunchArguments.JsValidateArgumentList` | src/shared/contracts.ts:234-267 | the TypeScript twin, with JavaScript's blanks |
| `LaunchArguments.ValidatorsAgreeExceptOnBlanks` | src/shared/contracts.ts:234-267 | the twin accepts exactly the lists Rust accepts without arguments that JavaScript calls blank |
| `LaunchArguments.ByteOrderMarkExample` | src/shared/contracts.ts:249-251 | a list on which the two differ |
| `LaunchArguments.ValidateValues` | src-tauri/src/models/launch.rs:195-235 | accepts exactly the required keys with acceptable values |
| `LaunchArguments.RenderAll` | src-tauri/src/models/launch.rs:127-152 | one rendered argument per argument, in order, each the substitution of its template |
| `LaunchArguments.RenderedArgumentsAreSound` | src-tauri/src/models/launch.rs:127-152 | after validation every rendered argument is non-empty and free of control characters |
| `LaunchArguments.RenderLaunchArgs` | src-tauri/src/models/launch.rs:127-152 | after validation only the two length limits can fail, and otherwise the result is the rendering |
| `PrefixIdentity.PushMissing` | crates/ro-session-protocol/src/lib.rs:22-25 | the missing names come back in path order |
| `PrefixIdentity.CanonicalizePrefixPath` | crates/ro-session-protocol/src/lib.rs:9-41 | the loop over ancestors computes the identity; relative paths have none |
| `PrefixIdentity.MissingIsMissing` | crates/ro-session-protocol/src/lib.rs:27-37 | an identity that skipped missing names is not there yet |
| `PrefixIdentity.IdentityIsStable` | crates/ro-session-protocol/src/lib.rs:9-41 | creating any directories anywhere never changes an identity |
| `PrefixIdentity.IdentityIsWhereItWillBe` | crates/ro-session-protocol/src/lib.rs:9-41 | once the identity exists, the path leads to it |
| `PrefixIdentity.SameIdentitySameDirectory` | crates/ro-session-protocol/src/lib.rs:9-41 | two paths have one identity exactly if they lead to one directory once it exists |
| `PrefixIdentity.SpellingsAgree` | crates/ro-session-protocol/src/lib.rs:9-41 | two spellings of one parent, through links or not, give one identity, or none, to what lies below, unless one runs out of links and then has none |
| `PrefixIdentity.MissingBelowBothSpellings` | crates/ro-session-protocol/src/lib.rs:9-41 | missing names below a directory have its place plus the names as identity |
| `PrefixIdentity.IdentityIsFixed` | crates/ro-session-protocol/src/lib.rs:9-41 | an identity is its own identity |
| `FileTree.ResolveIsStable` | crates/ro-session-protocol/src/lib.rs:9-41 | creating directories does not change where an existing path leads |
| `DosPath.CollectCandidates` | src-tauri/src/utils/runner.rs:135-151 | the drives whose roots contain the file |
| `DosPath.ValidateComponents` | src-tauri/src/utils/runner.rs:213-226 | accepts exactly lists of valid DOS components |
| `DosPath.ProtonExecutableDosPath` | src-tauri/src/utils/runner.rs:98-184 | both directions of the translation with every error |
| `DosPath.FirstIsBest` | src-tauri/src/utils/runner.rs:135-162 | the drive chosen is the deepest containing root, with the smallest letter on ties |
| `DosPath.BestIsUnique` | src-tauri/src/utils/runner.rs:152-162 | there is only one best drive, whatever the order of the listing |
| `DosPath.ListingOrderIsIrrelevant` | src-tauri/src/utils/runner.rs:133-162 | the translation does not depend on the order of the directory listing |
| `DosPath.ReadBack` | src-tauri/src/utils/runner.rs:104-126 | a written path reads back through the drive map to the same text and file |
| `DosPath.SlashInput` | src-tauri/src/utils/runner.rs:103-132 | a path that starts with a slash is a Unix path, except that one starting with /: is refused as a bad DOS path |
| `DosPath.UnixTranslatesIff` | src-tauri/src/utils/runner.rs:98-184 | on an unchanged tree an absolute Unix path is translated exactly if it does not start with /:, its executable resolves, the drives can be listed, and the components below the best drive are valid; the result names that drive and those components |
| `DosPath.UnixRoundTrip` | src-tauri/src/utils/runner.rs:98-184 | every translation of a Unix path translates to itself and names that executable |
| `DosPath.DosTranslatesIff` | src-tauri/src/utils/runner.rs:103-126 | DOS input is translated exactly if it spells, with either separator, valid components that name an executable inside its drive; the result is the one canonical writing of drive and components |
| `DosPath.DriveLeadsIff` | src-tauri/src/utils/runner.rs:186-202 | a drive leads exactly where its link in the prefix resolves, if that is a directory |
| `DosPath.UnixPathJoins` | src-tauri/src/utils/runner.rs:128-132 | a Unix path is read component by component |
| `DosPath.UnixPathReadsBack` | src-tauri/src/utils/runner.rs:128-132 | a written Unix path reads back |
| `DosPath.TranslationIsIdempotent` | src-tauri/src/utils/runner.rs:98-184 | translating a translation changes nothing |
| `DosPath.ComparisonOnlyCatchesChanges` | src-tauri/src/utils/runner.rs:179-183 | the final comparison can fail only if the file system changed in between |

## Left out

- Supervisor.Supervisor.RunTurn: waiting for output threads and the sleep of 100 ms between turns are not modelled; time passes at system calls.
- SessionRuns.TablesAgreeInEveryRun: an admitted launch whose identity cannot be read has an exit but no acceptance in the log, as in the source.
- The retry loop of `acquire_for` and its timeout, which only repeats an acquisition.
- Normalised paths and hashed names of lock files: a key stands for its file, so collisions are excluded.
- The text of `/proc/<pid>/maps`: regions are given. Reads of a chunk are complete or fail; short reads of the byte search are not modelled.
- JSON text and serde: printing then parsing a document gives it back, and a value's own document decodes to it. Serialisation errors and a missing parent directory of the store are not modelled.
- The messages of errors; an error is its event or case.
- Validation of process specifications and the merging of environments: a specification is valid or not.
- Other subreapers below the sidecar, processes that leave its tree, and a signal that misses a process forked while the tree is being listed.
- Failures of event writes, poisoned mutexes, and the wrap-around of 64-bit counters.
- Permissions, trailing slashes and names that are not UTF-8 in path resolution; strings with lone surrogates.
- Two launchers writing one JSON file at the same time, which the callers exclude with operation guards.
- Read-only queries of the client registry (snapshots, the sole running client), which only filter the table.
- Engines, user interface, downloads, devices and settings validators.
