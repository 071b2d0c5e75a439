# Verified model of the Ordivon Runtime

Ordivon Runtime executes Jobs on a local machine and keeps durable evidence of what they did. The
model covers the parts in which separately written pieces must agree.

| file | part of the system |
|---|---|
| `Launcher.dfy`, `Supervisor.dfy` | the Windows launcher as a step relation over its own program counter, the process table, its named Job object and its files; the recovery verdicts for Windows and for systemd units |
| `Capture.dfy`, `Evidence.dfy` | bounded output capture, the result bundle and its import into a terminal state |
| `Registry.dfy`, `EventLog.dfy`, `RepairRuns.dfy` | the Registry tables, the Job event log, the administrative transactions, the seven invariant queries, and what holds over every run of them |
| `Doctor.dfy`, `Projection.dfy` | the Doctor's proposals and the status shown to callers, against the same tables |
| `Canonical.dfy`, `InputTree.dfy`, `Materialized.dfy`, `Agreement.dfy`, `Presentation.dfy` | the two encoders of an immutable input tree, the tree a list of bindings builds, and the presentation step that relies on the digest |
| `Cutover.dfy`, `Rollout.dfy`, `Fence.dfy` | the release cutover with drain, rollback and receipts, behind the admission fence; `Rollout` says what a run comes to for every way its calls can turn out |
| `CommandLine.dfy`, `JsonText.dfy`, `EnvFile.dfy`, `Utf8Stream.dfy`, `TraceLog.dfy` | argument quoting against Microsoft's argument rules, JSON strings against section 7 of RFC 8259, the environment file's writer and reader, text polling against section 4 of RFC 3629, trace rotation |

Everything that an environment may do (crashes, process exits, reused process numbers, failing calls,
other processes writing to disk, admissions and completions) is a label, an event list or a function
given from outside, and the theorems are for all of them. Where the source updates state step by step, a
class or a loop does the same and is tied to a function; the theorems are about that function and its runs.

## What the proofs turned up

Each of these is a lemma with a concrete input or an exact condition.

- The argv[0] rule: the built command line gives back the executable only if its path has no quote and, when it must be quoted, no backslash at its end (`CommandLineRoundTrip`). The deployer's copy of the quoter drops empty values and only those (`DeployerRoundTrip`).
- When the launcher ends while its tree executes, the recovery verdict is right if and only if nobody else holds a handle to the named Job; otherwise it calls a running tree finished (`ExitVerdictIsRightExactlyWhen`, with a reachable state in `SecondHandleDefeatsTheVerdict`). The repository opens the Job by its name in one place only, so the second holder must be another program that may open it.
- From a cancelled launcher at its wait, a run that ends both cancelled and timed out exists if and only if the target is not dead yet, and it takes a cancel marker that is removed again (`AmbiguityIsReachedExactlyWhen`, `OutcomeIsUnambiguous`). Nothing in the repository removes the marker.
- Repairing an Attempt that is not its Job's latest one can add a report to a clean Registry (`OlderAttemptRepairAddsAReport`); the exact condition is `RepairedJobIsSoundExactlyWhen`. A batch refuses to commit that state. The one place that inserts Attempts (crates/ordivon-runtime-core/src/runtime/registry/admission.rs:416) only ever writes number 1, so the two Attempts of the example must come from elsewhere; the schema allows them.
- A resolved Job with no Attempt at all escapes every invariant query and projects as Committed (`CommittedWithoutAnAttempt`). Admission inserts a Job together with its Attempt, so such a row, too, must come from elsewhere.
- On a file system that ignores case, "A/x" and "a/y" pass both path checks, and the two encoders then disagree about the directory (`TwoSpellingsAreAcceptedAndDisagree`); absence of such directory aliases is the exact condition (`EncodersAgreeExactlyWithoutAliases`). Every list that passes the path check builds if and only if the file system's equivalence of names refines the check's case mapping (`CheckedListsBuildExactlyWhenRefined`).
- A rollback reported as complete leaves a service running the new image exactly when its stop failed and left it up and it did not crash since: a failed stop is ignored, and starting a running service succeeds (`Deployer.Rollback`, with a whole run in `StaleImageAfterRollback`). The fence is already open during a rollback.
- The receipt `recovery_failed` always blames the migration, which is true exactly when the Doctor could be read (`ReceiptsAreTruthful`, with a whole run in `MigrationBlamedForAnUnreadableDoctor`).
- A finished output file that was cut inside a character never reports its end (`CutFileNeverEnds`).
- The rewritten environment file reads back as intended if and only if both paths are trimmed and free of NUL and newline (`RewriteThenParse`).
- `truncated` is wrong exactly when the dropped byte count is a positive multiple of 2^64 (`TruncatedIsTruthful`).

## Model

| member | source | states |
|---|---|---|
| Launcher.NextKeepsInv | platform/windows/Ordivon.WindowsJobLauncher.cs:1612-1836 | every step of the launcher (including an exception or crash at any statement) and of its surroundings keeps ownership of execution, order of progress, honest flags and the published result |
| Launcher.RunKeepsInv | platform/windows/Ordivon.WindowsJobLauncher.cs:1612-1836 | the invariant holds in every state any run reaches |
| Launcher.VerdictIsSound | crates/ordivon-runtime-core/src/runtime/supervisor.rs:118-150 | in every reachable state a target that ever executed is in the kill-on-close Job with its start evidence published; the verdict is Running exactly while the launcher itself exists; an ended verdict means nobody of the tree executes, unless another process holds the Job |
| Launcher.VerdictNamesTheOutcome | crates/ordivon-runtime-core/src/runtime/supervisor.rs:118-150 | the whole Windows verdict in every reachable state: running, orphaned, cancelled, timed out or failed, each with its exact condition; without a result it is never succeeded |
| Launcher.ExitVerdictIsRightExactlyWhen | crates/ordivon-runtime-core/src/runtime/supervisor.rs:118-150 | for every launcher that ends while its tree executes, by crash or at its end, the verdict is that the tree has ended, and that is right if and only if nobody else holds the Job |
| Launcher.LastHandleEndsTheTree | platform/windows/Ordivon.WindowsJobLauncher.cs:2533-2577 | a tree that outlives its launcher ends with the closing of the last handle to the Job and of no earlier one |
| Launcher.GoneStaysGone | platform/windows/Ordivon.WindowsJobLauncher.cs:2533-2577 | once the launcher is gone and nobody else holds the Job, nothing of the tree executes ever again |
| Launcher.ResultIsPublishedOnce | platform/windows/Ordivon.WindowsJobLauncher.cs:1779-1836 | result.json is published at most once, only after the Job handle is closed, both captures joined without error and the power request released, and never changes afterwards |
| Launcher.ReportedCodeIsTheTargets | platform/windows/Ordivon.WindowsJobLauncher.cs:1773-1808 | from the moment it is read, and in the published result, the exit code is the one with which the target died |
| Launcher.ReportedCodeIsExplained | platform/windows/Ordivon.WindowsJobLauncher.cs:1725-1808 | the published code is the target's own if it exited by itself, and else 125 for a cancelled one and 124 for one out of time, one of which it then is |
| Launcher.EveryCodeIsPublished | platform/windows/Ordivon.WindowsJobLauncher.cs:1612-1836 | for every exit code of the target there is a run that publishes it, as completed exactly when it is 0 |
| Launcher.NothingIsLeftSuspended | platform/windows/Ordivon.WindowsJobLauncher.cs:1810-1836 | a launcher that ends without a crash, by whatever exception, leaves no target suspended |
| Launcher.EarlyCancelPreventsExecution | platform/windows/Ordivon.WindowsJobLauncher.cs:1725-1738 | a cancel marker present before the resume check and never removed means the target executes in no continuation |
| Launcher.OutcomeIsUnambiguous | platform/windows/Ordivon.WindowsJobLauncher.cs:1740-1765 | cancelled and timedOut are both set only if a cancel marker was removed during the run |
| Launcher.AmbiguityIsReachedExactlyWhen | platform/windows/Ordivon.WindowsJobLauncher.cs:1740-1765 | from every reachable cancelled state at the wait a run to both flags exists if and only if the target is not dead |
| Launcher.DerivedStateMatchesOutcome | crates/ordivon-runtime-core/src/runtime/evidence.rs:46-86 | the Attempt state derived from a published result is what happened: cancelled or timed out as the launcher found, and else succeeded exactly when the code with which the target died is 0 |
| Launcher.SecondHandleDefeatsTheVerdict | platform/windows/Ordivon.WindowsJobLauncher.cs:1634-1660 | a reachable state in which another Job handle is open, the tree executes and the recovery verdict says it has ended |
| Launcher.RemovedMarkerMakesOutcomeAmbiguous | platform/windows/Ordivon.WindowsJobLauncher.cs:1740-1765 | a reachable state that is both cancelled and timed out |
| Supervisor.SinceIsKept | crates/ordivon-runtime-core/src/runtime/supervisor.rs:158-203 | over reboots, process-number reuse and unit re-creation, an ended invocation stays ended and a dead recorded process stays dead |
| Supervisor.VerdictIsSound | crates/ordivon-runtime-core/src/runtime/supervisor.rs:158-203 | with the unit, boot id and processes read at different moments, Running means the recorded process is the unit's main process in the recorded boot, Terminal means the invocation ended or, for a missing unit, the recorded process is dead, and Lost means both |
| Supervisor.VerdictNamesTheOutcome | crates/ordivon-runtime-core/src/runtime/supervisor.rs:158-224 | the whole unit verdict for any three moments, each outcome with its exact condition: succeeded means that nobody asked for an end and the recorded invocation's unit ended well |
| Supervisor.OrphanNamesTheDifference | crates/ordivon-runtime-core/src/runtime/supervisor.rs:158-292 | orphaned exactly when something that is still shown differs from the record, and the reason names a field that does |
| Supervisor.OwnerIsRefusedExactlyWhen | crates/ordivon-runtime-core/src/runtime/supervisor.rs:88-116 | a Windows owner is refused exactly when a part of it is missing or malformed |
| Supervisor.IdentityIsRefusedExactlyWhen | crates/ordivon-runtime-core/src/runtime/supervisor.rs:226-259 | a recorded unit identity is refused exactly when a part of it is missing or malformed |
| Supervisor.RunningVerdictIsComplete | crates/ordivon-runtime-core/src/runtime/supervisor.rs:261-292 | in one world and the recorded boot, the verdict is Running if and only if the recorded process runs in the recorded control group |
| Supervisor.ReusedNumberIsNotRunning | crates/ordivon-runtime-core/src/runtime/supervisor.rs:261-292 | a reused process number never gives a Running verdict |
| Evidence.TerminalIsAFunctionOfTheBundle | crates/ordivon-runtime-core/src/runtime/evidence.rs:16-112 | importing a bundle again gives the same verdict whatever the Attempt's state has become, and only a Runner-terminal state comes out |
| Evidence.StateAndReasonNameTheCause | crates/ordivon-runtime-core/src/runtime/evidence.rs:46-86 | each state and each reason is recorded for exactly the results that have that cause, a success before a stop took effect among them |
| Evidence.ImportAcceptsExactlyWhen | crates/ordivon-runtime-core/src/runtime/evidence.rs:16-150 | a bundle is imported if and only if it is complete, names this very launch and both output files are as recorded; the three artifacts are then the three files as found, and time and infrastructure error are the result's |
| Evidence.LauncherBundleRoundTrip | crates/ordivon-runtime-core/src/runtime/evidence.rs:16-150 | a result that the launcher wrote for an Attempt about two captured streams is imported for it if and only if the two files found are the retained output, of which the commit names the true lengths and whether they were cut, the result's own time and its error if it has one; it is imported for no other Attempt, Job or launch |
| Capture.CaptureWorker.Run | platform/windows/Ordivon.WindowsJobLauncher.cs:213-252 | for every split of the stream into reads the file holds its first min(limit, total) bytes, retained counts them, and dropped is the rest in 64-bit arithmetic |
| Capture.ImportAcceptsExactlyTheCapture | crates/ordivon-runtime-core/src/runtime/evidence.rs:114-150 | the import accepts the file found if and only if it is the captured one, and records its true length |
| Capture.TruncatedIsTruthful | platform/windows/Ordivon.WindowsJobLauncher.cs:1869-1887 | `truncated` holds iff the total exceeded the limit, except exactly when the dropped count wraps to zero; below 2^64 bytes retained plus dropped is the total |
| TraceLog.TraceLog.Append | crates/ordivon-runtime-mcp/src/trace.rs:18-47 | a successful append adds the record to the history, of which rotated plus current segment stay a suffix ending in the newest record, in whole records, each segment within the limit or holding one record; it succeeds exactly when no fault hits, a record that fits never rotates, and a write cut short leaves the beginning of its record |
| TraceLog.TraceLog.Rotate | crates/ordivon-runtime-mcp/src/trace.rs:34-44 | rotation moves the current segment whole, or leaves it in place when a remove or rename fails |
| TraceLog.LinesOfRecords | crates/ordivon-runtime-mcp/src/trace.rs:18-47 | reading a segment line by line gives back its records |
| Utf8Stream.FromUtf8IsGrammar | crates/ordivon-runtime-core/src/runtime/engine.rs:506-510 | the validator accepts exactly the texts of the UTF-8 grammar |
| Utf8Stream.BrokenIsMaximal | crates/ordivon-runtime-core/src/runtime/engine.rs:506-510 | the validator says that the input ends inside a character exactly when a character begins like it, and a broken piece is the longest that begins one, or one byte |
| Utf8Stream.LossyIsText | crates/ordivon-runtime-core/src/runtime/engine.rs:526-530 | whatever the bytes, what is delivered is well-formed text, and it is the bytes themselves if and only if they are |
| Utf8Stream.ReadUtf8Range | crates/ordivon-runtime-core/src/runtime/engine.rs:469-531 | the range read returns what its specification says of the file as measured before the read |
| Utf8Stream.OutputFollower.Poll | crates/ordivon-runtime-core/src/runtime/engine.rs:533-591 | one poll moves the cursor and fills the view as specified, on a missing or growing file |
| Utf8Stream.SafeLengthOfPrefix | crates/ordivon-runtime-core/src/runtime/engine.rs:506-526 | a piece cut from well-formed text delivers whole characters and keeps back fewer than four bytes |
| Utf8Stream.PollStep | crates/ordivon-runtime-core/src/runtime/engine.rs:469-591 | a poll of at least four bytes delivers exactly the next bytes, never moves back, stays on boundaries, and fails only on a finished file that ends inside a character |
| Utf8Stream.ReadFailsExactlyWhen | crates/ordivon-runtime-core/src/runtime/engine.rs:469-591 | for any file, well formed or not, each of the three errors has its exact condition, a read stays within its bounds and stands still only before a cut character, and the end is reported exactly on a finished file read to its last byte |
| Utf8Stream.FollowingRun | crates/ordivon-runtime-core/src/runtime/engine.rs:469-591 | over any interleaving of appends and polls no poll fails, the offset never decreases, and what was delivered is exactly the bytes below it |
| Utf8Stream.FinishedFileIsReadToTheEnd | crates/ordivon-runtime-core/src/runtime/engine.rs:533-591 | on a finished well-formed file as many polls as bytes left reach the end with everything delivered |
| Utf8Stream.CutFileNeverEnds | crates/ordivon-runtime-core/src/runtime/engine.rs:511-524 | a finished file reports its end if and only if it is well formed |
| EnvFile.ParseRuntimeEnvText | crates/ordivon-runtime-mcp/src/main.rs:185-222 | the parsing loop computes the parse function, with the first bad line as error |
| EnvFile.ReplaceEnvReleasePaths | crates/ordivon-runtime-core/src/bin/ordivon-runtime-windows-deploy.rs:875-904 | the rewriting loop computes the rewrite function and fails exactly when one of the two keys is missing |
| EnvFile.FirstFaultIsReported | crates/ordivon-runtime-mcp/src/main.rs:185-222 | a text is accepted if and only if no line is at fault, and else the error names the first such line and its fault |
| EnvFile.LineMeansExactly | crates/ordivon-runtime-mcp/src/main.rs:189-217 | each line is skipped, refused for its reason or read as an assignment under its exact condition |
| EnvFile.SupportedKeysAreExactly | crates/ordivon-runtime-mcp/src/main.rs:199-206 | the accepted keys are RUST_LOG and ORDIVON_ followed by underscores, capital letters and digits |
| EnvFile.KeysAreUnique | crates/ordivon-runtime-mcp/src/main.rs:185-222 | in an accepted text no two lines assign the same key |
| EnvFile.ParseIsClean | crates/ordivon-runtime-mcp/src/main.rs:185-222 | every value an accepted text assigns is trimmed and free of NUL and newline |
| EnvFile.RewriteThenParse | crates/ordivon-runtime-core/src/bin/ordivon-runtime-windows-deploy.rs:875-904 | after a rewrite of an accepted text, parsing gives the old map with exactly the two paths replaced, under either line ending, if and only if both paths are trimmed and free of NUL and newline |
| EnvFile.EndingsAreKept | crates/ordivon-runtime-core/src/bin/ordivon-runtime-windows-deploy.rs:887-904 | the rewritten text ends all its lines alike, with CR LF if the file had one and else with LF |
| CommandLine.QuoteWindowsArgument | platform/windows/Ordivon.WindowsJobLauncher.cs:2710-2752 | the quoting loop computes the quoted form |
| CommandLine.BuildCommandLine | platform/windows/Ordivon.WindowsJobLauncher.cs:2698-2708 | the command line is the quoted executable followed by each quoted argument after a space |
| CommandLine.JoinArguments | platform/windows/Ordivon.WindowsPrivilegedBroker.cs:657-696 | the broker's join is the quoted arguments with single spaces between them |
| CommandLine.QuoteByDeployer | crates/ordivon-runtime-core/src/bin/ordivon-runtime-windows-deploy.rs:1015-1037 | the deployer's loop computes its quoted form |
| CommandLine.CommandLineRoundTrip | platform/windows/Ordivon.WindowsJobLauncher.cs:2698-2752 | parsing the built line by Microsoft's rules gives exactly the executable and the arguments if and only if the executable has no quote and no backslash before an added closing quote |
| CommandLine.PlainExactlyWhen | platform/windows/Ordivon.WindowsJobLauncher.cs:2710-2724 | a value is written as it is if and only if it is not empty and has no white space and no quote |
| CommandLine.JoinArgumentsRoundTrip | platform/windows/Ordivon.WindowsPrivilegedBroker.cs:657-696 | the broker's line gives back every argument list |
| CommandLine.DeployerRoundTrip | crates/ordivon-runtime-core/src/bin/ordivon-runtime-windows-deploy.rs:1015-1037 | the deployer's copy loses exactly the empty values, so it round-trips if and only if there is none |
| JsonText.JsonString | platform/windows/Ordivon.WindowsJobLauncher.cs:2475-2509 | the escaping loop computes the literal, `null` for an absent string |
| JsonText.JsonStringRoundTrip | platform/windows/Ordivon.WindowsJobLauncher.cs:2475-2509 | reading the literal as a JSON string, with anything behind it, gives back the value and stops at the literal's end |
| JsonText.JsonStringIsPrintable | platform/windows/Ordivon.WindowsJobLauncher.cs:2475-2509 | before its closing quote the literal has no control character and no unescaped quote |
| JsonText.JsonStringInjective | platform/windows/Ordivon.WindowsJobLauncher.cs:2475-2509 | different values, absent included, have different literals |
| Registry.TriggersNeverFire | crates/ordivon-runtime-core/migrations/runtime/0004_orphan_reclaim.sql:3-40 | a repair that passed its own tests is never aborted by the two SQL triggers |
| Registry.Transaction.AppendEvent | crates/ordivon-runtime-core/src/runtime/registry.rs:561-610 | in a numbered log the new event carries the Job's new count, and the log stays numbered 1..n for every Job |
| Registry.Transaction.ReleaseReservation | crates/ordivon-runtime-core/src/runtime/registry.rs:612-651 | afterwards the Attempt takes up no slot and no other row has changed; a reservation that was released stays exactly as it was, and a missing one is a conflict |
| Registry.Transaction.HoldOrphanedReservation | crates/ordivon-runtime-core/src/runtime/registry.rs:652-674 | it succeeds if and only if the Attempt takes up a slot, which it then still does, held and without a release time; no other row changes |
| Registry.Transaction.RegisterArtifacts | crates/ordivon-runtime-core/src/runtime/registry.rs:740-768 | the insert loop computes the artifact table, or fails at the first identity or path collision |
| Registry.Transaction.RepairTerminal | crates/ordivon-runtime-core/src/runtime/registry.rs:676-826 | the statements of a terminal repair, one after the other, end where the transaction's specification ends, trigger tests included, and refuse for the same reason |
| Registry.Transaction.RepairTerminalReservation | crates/ordivon-runtime-core/src/runtime/registry.rs:828-891 | the same for a reservation repair |
| Registry.Transaction.ConvergeReservation | crates/ordivon-runtime-core/src/runtime/registry/recovery.rs:259-318 | the same for the unattended reservation convergence |
| Registry.SoundMeansNothingReported | crates/ordivon-runtime-core/src/runtime/registry.rs:941-1005 | the tables are sound if and only if none of the seven queries returns a row |
| Registry.Database.RepairAdminBatch | crates/ordivon-runtime-core/src/runtime/registry/recovery.rs:217-257 | a batch commits all its operations or changes nothing, and it commits exactly when each is accepted in turn and no query then returns a row |
| RepairRuns.RepairCommitsExactlyWhen | crates/ordivon-runtime-core/src/runtime/registry.rs:676-826 | a terminal repair commits if and only if it is well formed, its Attempt is lost or orphaned, its plan was made from the very rows that are there, and its artifacts collide with nothing |
| RepairRuns.RepairIsRefusedFor | crates/ordivon-runtime-core/src/runtime/registry.rs:676-768 | each error of a refused repair has its exact condition, and these follow each other: malformed, missing, not a permitted change of state, a plan left behind by the rows, an artifact that is there already |
| RepairRuns.ReservationRepairCommitsExactlyWhen | crates/ordivon-runtime-core/src/runtime/registry.rs:828-891 | a reservation repair commits if and only if the rows exist and are the ones its plan was made from, the evidence is complete and the reservation can still be moved to where it belongs |
| RepairRuns.MoveIsRefusedFor | crates/ordivon-runtime-core/src/runtime/registry.rs:828-923 | for a planned and an unattended reservation move each error, and success, has its exact condition |
| RepairRuns.RepairIsRecorded | crates/ordivon-runtime-core/src/runtime/registry.rs:791-825 | a committed repair leaves the old log and two more events of the Job, of the two types and numbered on, from the old to the new state, with the request's reason |
| RepairRuns.MoveIsRecorded | crates/ordivon-runtime-core/src/runtime/registry.rs:850-891 | a committed reservation move changes nothing if the reservation is where it belongs, and else leaves one more event of the Job, numbered on, and the reservation dated |
| RepairRuns.ReportsAfterRepair | crates/ordivon-runtime-core/src/runtime/registry.rs:676-826 | the only report a repair can add, or leave about its Job and Attempt, is a latest other Attempt that ended differently; and that one it always leaves |
| RepairRuns.RepairOfLatestIsClean | crates/ordivon-runtime-core/src/runtime/registry.rs:676-826 | repairing a Job's latest Attempt leaves both clean under all seven queries and adds no report anywhere, for tables of any size |
| RepairRuns.RepairedJobIsSoundExactlyWhen | crates/ordivon-runtime-core/src/runtime/registry.rs:676-826 | for a repair of any Attempt, its Job is clean afterwards if and only if the latest Attempt is the repaired one or is in the same state |
| RepairRuns.OlderAttemptRepairAddsAReport | crates/ordivon-runtime-core/src/runtime/registry.rs:984-988 | a clean Registry with two lost Attempts on which a permitted repair of the older one adds a report |
| EventLog.NumbersAreExactly | crates/ordivon-runtime-core/src/runtime/registry.rs:573-578 | in a numbered log a Job's events carry 1..n, each exactly once and in order |
| EventLog.EventKeepsNumbering | crates/ordivon-runtime-core/src/runtime/registry.rs:561-610 | appending under MAX + 1 keeps the log numbered and keeps all of it |
| RepairRuns.RegisteredExactly | crates/ordivon-runtime-core/src/runtime/registry.rs:740-768 | exactly the listed artifacts are added, under distinct new ids, and path uniqueness is kept |
| RepairRuns.BatchIsARun | crates/ordivon-runtime-core/src/runtime/registry/recovery.rs:217-257 | a committed batch ends where its operations end one transaction at a time |
| RepairRuns.RunIsHistory | crates/ordivon-runtime-core/src/runtime/registry.rs:561-891 | over every run a Runner-terminal Attempt is never rewritten, every change of an Attempt or Job row raises its version, reservations only move on and a released one stays as released, held capacity never grows, the log only grows and stays numbered 1..n |
| RepairRuns.PlanCommitsOnce | crates/ordivon-runtime-core/src/runtime/registry.rs:706-719 | a terminal-repair plan that has committed is refused ever after, whatever runs in between |
| RepairRuns.StalePlanIsRefused | crates/ordivon-runtime-core/src/runtime/registry.rs:707-719 | whatever ran since a plan was made, a terminal repair and a reservation repair are refused by it if the Attempt, the Job or the reservation has changed |
| RepairRuns.RunAddsNoReport | crates/ordivon-runtime-core/src/runtime/registry.rs:676-891 | over every run whose terminal repairs are of latest Attempts, no invariant query ever returns a new row |
| Doctor.RecoveryConverges | crates/ordivon-runtime-core/src/runtime/doctor.rs:456-485 | after a proposed recovery commits the Doctor has nothing to propose, with or without the bundle |
| Doctor.RecoveryIsRefusedExactlyWhen | crates/ordivon-runtime-core/src/runtime/registry.rs:676-723 | with the rows unchanged a proposed recovery is refused if and only if the Attempt is neither lost nor orphaned, or its Job was resolved differently, or the request or an artifact is malformed or collides |
| Doctor.ImportIsWellFormedExactlyWhen | crates/ordivon-runtime-core/src/runtime/registry.rs:1770-1822 | what an import asks to commit passes the field checks of the repair if and only if the Attempt's id has no control character and at most 249 bytes |
| Doctor.ReservationMoveIsRefusedExactlyWhen | crates/ordivon-runtime-core/src/runtime/registry.rs:828-923 | with the rows unchanged a proposed reservation move is refused if and only if the Attempt is orphaned and the reservation already released |
| Doctor.ReservationMoveConverges | crates/ordivon-runtime-core/src/runtime/doctor.rs:456-498 | after a proposed reservation move commits the Doctor has nothing to propose |
| Doctor.FinalizingLost | crates/ordivon-runtime-core/src/runtime/doctor.rs:487-519 | finalizing a lost Attempt settles it when there is no bundle; an unreadable bundle keeps asking for review |
| Doctor.SoundTablesNeedNoMove | crates/ordivon-runtime-core/src/runtime/doctor.rs:456-541 | on tables without reports no reservation move is proposed |
| Doctor.NothingToRepairExactlyWhen | crates/ordivon-runtime-core/src/runtime/doctor.rs:456-541 | nothing is proposed if and only if the Attempt ended with complete evidence and a fitting reservation and state, digest, time and exit code of the rows are what the bundle says, if there is one |
| Doctor.MoveIsProposedExactlyWhen | crates/ordivon-runtime-core/src/runtime/doctor.rs:456-520 | a reservation move is proposed if and only if the evidence is complete, the rows say what the bundle says if there is one, and one of the two reservation queries reports the Attempt |
| Doctor.RecoveryIsProposedExactlyWhen | crates/ordivon-runtime-core/src/runtime/doctor.rs:456-485 | a recovery, with exactly the imported result, is proposed if and only if a bundle imports and the rows do not say what it says |
| Doctor.ReviewIsAskedForExactlyWhen | crates/ordivon-runtime-core/src/runtime/doctor.rs:456-520 | review is asked for if and only if a bundle does not import, or there is none and evidence is missing |
| Doctor.ReasonsNameTheGaps | crates/ordivon-runtime-core/src/runtime/doctor.rs:499-520 | without a bundle each gap in the evidence is named if and only if it is there |
| Doctor.NothingToRepairMeansNoReport | crates/ordivon-runtime-core/src/runtime/doctor.rs:456-541 | where nothing is proposed for a Job's latest Attempt, no invariant query reports that Job or Attempt |
| Doctor.SoundLatestNeedsNothing | crates/ordivon-runtime-core/src/runtime/doctor.rs:487-498 | on tables without reports nothing is proposed for the latest Attempt of a resolved Job |
| Projection.ProjectionIsTruthful | crates/ordivon-runtime-core/src/runtime/registry.rs:1049-1158 | on tables without reports a Job's status is terminal iff it is resolved and then names its latest Attempt's state, queued and working name the states they stand for, delivery is Committed iff the state is Runner-terminal and no recovery flag is set, each other delivery, the recovery flag and the poll hint have their exact condition, and a lost or orphaned Job is never Committed |
| Projection.RepairIsDelivered | crates/ordivon-runtime-core/src/runtime/registry.rs:676-826 | after a committed repair of the latest Attempt callers see the repaired state, delivered unless lost, with no recovery required |
| Projection.ReasonIsTheLastRepairs | crates/ordivon-runtime-core/src/runtime/registry.rs:1007-1023 | over every run of repairs, reservation moves and refusals the reason shown with a Job is that of the last repair committed on one of its Attempts and, without one, what it was before |
| Projection.LatestReasonIsHighest | crates/ordivon-runtime-core/src/runtime/registry.rs:1015-1018 | the reason is taken from the highest-numbered event of the Job that gives one, and from none exactly when no event gives one |
| Projection.SnapshotIsDetermined | crates/ordivon-runtime-core/src/runtime/registry.rs:1049-1066 | under the schema a Job has one snapshot Attempt and only one |
| Projection.NoAttemptNoBacking | crates/ordivon-runtime-core/src/runtime/registry.rs:1095-1158 | what is projected for a Job that no Attempt backs |
| Projection.CommittedWithoutAnAttempt | crates/ordivon-runtime-core/src/runtime/registry.rs:941-1005 | a Registry without reports whose Job is Committed and has no Attempt |
| Canonical.Utf8OrdinalCompare | platform/windows/Ordivon.WindowsJobLauncher.cs:2371-2382 | the comparison's sign is the bytewise order, and zero only for equal texts |
| Canonical.EncodeIsInjective | platform/windows/Ordivon.WindowsJobLauncher.cs:2302-2338 | on NUL-free names and digests the canonical bytes determine the directory and file lists |
| Canonical.SortedIsUnique | crates/ordivon-runtime-core/src/runtime/engine.rs:145-161 | a sorted list of entries is determined by what it holds |
| InputTree.CollectInputTree | platform/windows/Ordivon.WindowsJobLauncher.cs:2340-2369 | the recursive walk appends its listing, and fails exactly when there is a reparse point somewhere below |
| Agreement.FileIsListed | platform/windows/Ordivon.WindowsJobLauncher.cs:2340-2369 | every file of the tree is listed under its full path |
| Agreement.ListedIsFile | platform/windows/Ordivon.WindowsJobLauncher.cs:2340-2369 | everything listed as a file is one |
| Agreement.DirIsListed | platform/windows/Ordivon.WindowsJobLauncher.cs:2340-2369 | every directory of the tree, empty ones included, is listed |
| Agreement.ListedIsDir | platform/windows/Ordivon.WindowsJobLauncher.cs:2340-2369 | everything listed as a directory is one |
| InputTree.InputTreeBytes | platform/windows/Ordivon.WindowsJobLauncher.cs:2302-2338 | the launcher's loops write the canonical bytes of the tree |
| InputTree.WindowsInputBindingsBytes | crates/ordivon-runtime-core/src/runtime/engine.rs:145-177 | the engine's loops write the canonical bytes of the bindings |
| Materialized.AcceptedBuilds | crates/ordivon-runtime-core/src/runtime/registry.rs:1595-1647 | a list without overlaps builds in any order, and the tree holds nothing that is not from the list |
| Materialized.BuildsExactlyWithoutOverlap | crates/ordivon-runtime-core/src/runtime/registry.rs:1627-1645 | a list builds, in its order, if and only if no two of its paths overlap for the file system |
| Materialized.BuildHoldsExactly | crates/ordivon-runtime-core/src/runtime/registry.rs:1595-1647 | without aliases the tree holds exactly the listed files and their parent directories |
| Materialized.EquivalentDirectoriesAreOne | platform/windows/Ordivon.WindowsJobLauncher.cs:2340-2369 | in a tree without equivalent names two equivalent directories are the same |
| Agreement.EncodersAgreeExactlyWithoutAliases | crates/ordivon-runtime-core/src/runtime/engine.rs:145-177 | for every list without overlap for the file system, in any order, the bytes from the list equal the bytes from the tree it builds, if and only if no two directories are equivalent to it but different |
| Agreement.EncodersAgreeOnCaseSensitiveNames | crates/ordivon-runtime-core/src/runtime/engine.rs:145-177 | where only equal names are equivalent the encoders agree on every list the overlap loop accepts |
| Agreement.EqualBytesMeanTheCommittedTree | platform/windows/Ordivon.WindowsJobLauncher.cs:2302-2369 | with the digest taken as injective any tree with the committed bytes has no reparse point and holds exactly the committed files and directories |
| Presentation.ValidateWindowsInputRelativePaths | crates/ordivon-runtime-core/src/runtime/windows.rs:1223-1294 | the text comparison accepts exactly the lists of well-formed paths whose components do not overlap after case mapping |
| Presentation.ComponentIsAcceptedExactlyWhen | crates/ordivon-runtime-core/src/runtime/windows.rs:1223-1262 | a component is accepted if and only if it is not empty, has no control character, backslash or wildcard, does not end in a space or a dot, and spells none of the 22 device names in any case or with any extension |
| Presentation.RejectOverlaps | crates/ordivon-runtime-core/src/runtime/registry.rs:1595-1647 | the overlap loop accepts exactly the lists of pairwise unrelated paths |
| Presentation.AliasingCheckIsStricter | crates/ordivon-runtime-core/src/runtime/registry.rs:1595-1647 | what the aliasing check accepts the overlap loop accepts too |
| Presentation.AcceptedPathsAreAccepted | crates/ordivon-runtime-core/src/runtime/registry.rs:1595-1647 | the accepted lists are the ones that the agreement of the encoders is about |
| Presentation.CheckedListsBuildExactlyWhenRefined | crates/ordivon-runtime-core/src/runtime/windows.rs:1265-1294 | every list that passes the check builds on a file system if and only if the names the file system takes for one are one to the check's case mapping |
| Presentation.EncodersAgreeOnCheckedLists | crates/ordivon-runtime-core/src/runtime/engine.rs:145-177 | for every list that passes the check, on a file system whose equivalence refines the check's, the encoders agree if and only if no two directories are one to the file system and yet differ in name |
| Presentation.TwoSpellingsAreAcceptedAndDisagree | crates/ordivon-runtime-core/src/runtime/windows.rs:1265-1294 | two accepted bindings on which the encoders disagree under a case-insensitive file system |
| Presentation.CopyLists | platform/windows/Ordivon.WindowsJobLauncher.cs:2274-2300 | an exact copy lists the same files and directories in the same order |
| Presentation.Presenter.PrepareImmutableInputs | platform/windows/Ordivon.WindowsJobLauncher.cs:2183-2272 | whatever others do to the disk between the calls and whichever call fails, a normal return means the presented tree had the committed digest at the last look; with nobody else at the disk it returns normally exactly when the source has that digest, no link is in the way and each of the counted calls works, a good presentation is never touched, and a failed run leaves what was there, nothing, or a tree with that digest |
| Presentation.PresentedTreeIsTheCommittedOne | platform/windows/Ordivon.WindowsJobLauncher.cs:2183-2272 | that digest means the presented tree is exactly the committed one |
| Presentation.CommittedTreeShowsTheDigest | platform/windows/Ordivon.WindowsJobLauncher.cs:2183-2272 | a tree that holds exactly the accepted bindings is let through |
| Fence.QuietMeansOwnerOnly | crates/ordivon-runtime-core/src/bin/ordivon-runtime-windows-deploy.rs:809-815 | the blocker filter is empty if and only if every active Job is the owner |
| Fence.FencedRun | crates/ordivon-runtime-core/src/runtime/registry/admission.rs:286-289 | while the exclusive lock is held no interleaving of admissions and completions adds an active Job |
| Fence.QuietForEverExactlyWhenFenced | crates/ordivon-runtime-core/src/bin/ordivon-runtime-windows-deploy.rs:825-855 | only the owner can be active whatever happens next, if and only if the exclusive lock is held and the drain saw nothing else |
| Cutover.Deployer.WaitForDrain | crates/ordivon-runtime-core/src/bin/ordivon-runtime-windows-deploy.rs:839-855 | it returns the active Jobs, all of them the owner's, exactly when the polls before the deadline reach a moment without blockers |
| Cutover.Deployer.Prepare | crates/ordivon-runtime-core/src/bin/ordivon-runtime-windows-deploy.rs:1158-1198 | it succeeds exactly when the drain ends, the nine calls after it work, the Doctor's report is healthy at a supported version and the new setup can be worked out; nothing is changed, and the old setup and the drained plan are on record |
| Cutover.Deployer.Switch | crates/ordivon-runtime-core/src/bin/ordivon-runtime-windows-deploy.rs:1200-1226 | it succeeds exactly when its nine calls do, both reports are healthy and the version is supported, and then the new env text and both images are configured and nothing else runs; a failed one leaves exactly the site, running services included, that the calls up to the failure make. Its frame leaves the lock alone, and with it the promise that only the owner's Job is active |
| Cutover.Deployer.Rollback | crates/ordivon-runtime-core/src/bin/ordivon-runtime-windows-deploy.rs:1237-1246 | it succeeds exactly when the five calls it looks at do, and then the old setup is configured; a service then runs another image if and only if it ran one before, its stop failed and left it up and it did not crash, and it is still that one; both services |
| Cutover.Deployer.Recover | crates/ordivon-runtime-core/src/bin/ordivon-runtime-windows-deploy.rs:1230-1297 | commands are issued if and only if the Doctor can be read and the migration that the world has come to by then is no higher than planned; they are exactly a rollback's, up to the first that fails and counts, and what is published and configured is what the recovery's course says |
| Cutover.Deployer.Apply | crates/ordivon-runtime-core/src/bin/ordivon-runtime-windows-deploy.rs:1138-1318 | for every way the calls turn out, the commands issued, the published receipt and the final configuration are those of the run's course; no receipt leaves the previous result.json; the preimage on record is the old setup; after a completed rollback either service runs another image than the old one if and only if the switch had brought it up on that image and its stop failed and left it up; the fence is free afterwards |
| Cutover.Deployer.Deploy | crates/ordivon-runtime-core/src/bin/ordivon-runtime-windows-deploy.rs:1040-1318 | a whole run reported as deployed has each service configured to its own image of the candidate, nothing running that was started from another, and the old environment file with the candidate's two paths, which reads back as intended |
| Rollout.ReceiptsAreTruthful | crates/ordivon-runtime-core/src/bin/ordivon-runtime-windows-deploy.rs:1228-1318 | `deployed` means the new setup at a version supported when last checked, `rolled_back` the old setup after a permitted rollback, `rollback_failed` that a step of a permitted rollback failed, `recovery_failed` that none was permitted and nothing was touched after the switch; its claim about the migration is true exactly when the Doctor could be read |
| Rollout.RollbackIsIssuedExactlyWhen | crates/ordivon-runtime-core/src/bin/ordivon-runtime-windows-deploy.rs:1138-1298 | among all commands that a whole run issues, the Runtime service is told to stop once when the run gets that far, and a second time, for the rollback, if and only if the switch fails and the Doctor can then be read and sees no higher migration than planned |
| Rollout.DeployedExactlyWhen | crates/ordivon-runtime-core/src/bin/ordivon-runtime-windows-deploy.rs:1299-1318 | a run ends as deployed if and only if it begins, its switch works and its last two calls do |
| Rollout.HealthyRunIsDeployed | crates/ordivon-runtime-core/src/bin/ordivon-runtime-windows-deploy.rs:1138-1318 | when every call works and every report is healthy at a supported version, the run ends as deployed if and only if the fence was free, the drain ends in time and the new setup can be worked out |
| Cutover.StaleImageAfterRollback | crates/ordivon-runtime-core/src/bin/ordivon-runtime-windows-deploy.rs:1237-1246 | for every env text that names both paths, a whole run that publishes `rolled_back` while the Runtime service still runs the new image |
| Cutover.MigrationBlamedForAnUnreadableDoctor | crates/ordivon-runtime-core/src/bin/ordivon-runtime-windows-deploy.rs:1230-1297 | a whole run that publishes `recovery_failed` blaming the migration although the Registry's version is no higher than planned |
| Cutover.NewSetupReadsBack | crates/ordivon-runtime-core/src/bin/ordivon-runtime-windows-deploy.rs:1040-1087 | the Runtime started on the new setup reads its old settings with exactly the two paths replaced, if and only if both paths survive the file |

## Left out

- Launcher.VerdictIsSound: leaves open whether a tree that another holder of the Job keeps alive has ended by itself; `ExitVerdictIsRightExactlyWhen` is the exact condition at the launcher's end.
- Launcher.OutcomeIsUnambiguous: allows both flags after a removed cancel marker, because the code does; `AmbiguityIsReachedExactlyWhen` says from where.
- Launcher.DerivedStateMatchesOutcome: takes a result that reports no infrastructure error and an exit code, which is what the launcher writes when it publishes.
- Supervisor.VerdictIsSound: assumes that invocation ids and process start identities are not reused and that the observation reads unit, boot id and processes in that order.
- Evidence.TerminalIsAFunctionOfTheBundle: opening the files without following links, and the media type of an artifact, are not modelled.
- Capture.CaptureWorker.Run: reads of the pipe are given as a list of chunks no longer than the buffer; file-system write errors count as a failed capture.
- TraceLog.TraceLog.Append: after a write that stopped in the middle of a record the segments no longer hold whole records, so the invariant is promised for every other outcome only; the saturating addition of lengths near 2^64 is not modelled.
- Utf8Stream.ReadUtf8Range: a read always returns as many bytes as are there up to the bound.
- EnvFile.RewriteThenParse: the file is taken as a sequence of characters, its UTF-8 decoding being a step before; the deployer's own second reader of the file is reduced to the step that may fail.
- CommandLine.CommandLineRoundTrip: a NUL in an argument, which ends the line for the system, is not modelled.
- Registry.Transaction.RepairTerminal: event ids, the event's detail document, media types and the integer ranges of the columns are not modelled; the conditional updates' own conditions were read in the same exclusive transaction and cannot fail.
- RepairRuns.RunIsHistory: covers terminal repair, reservation repair and reservation convergence; admission, normal completion and stale cancellation are other transactions.
- Doctor.RecoveryConverges: is about an Attempt whose bundle path is the canonical one; any other path gives a manual review at once.
- Projection.ProjectionIsTruthful: the artifact flag and the fields copied from the rows are not modelled.
- Projection.ReasonIsTheLastRepairs: an event always has a previous and a new state here.
- Agreement.EncodersAgreeExactlyWithoutAliases: names are taken as their UTF-8 bytes.
- Presentation.Presenter.PrepareImmutableInputs: access-control lists, the parent directory and the token check are not modelled; a tree is read in one step, and deleting the staging directory is taken to work.
- Presentation.CopyLists: the copy is a function on trees rather than calls on a disk.
- Cutover.Deployer.Apply: the calls of a run are numbered and how each turns out is given by a script; how the new setup is worked out is a function given to the deployer, which `NewSetup` makes of the env rewrite and the image command lines; no one but the deployer writes the env file and the service configuration; a deadline is a number of polls; the image command lines come in as texts; unlocking the fence may fail, and it is then freed when the run ends.
- Field-by-field validation of submitted plans, option parsing, tokens, HTTP and access control: each claim would restate one branch.
- SQLite, SHA-256, systemd, the service manager and Win32 calls appear as atomic transactions, a digest function with the stated assumptions, and steps that may fail.
