# Aura's server-side protocols, in Dafny

The web server of Aura (SlurmUI) talks to Slurm clusters over long-lived SSH shells, reconciles job
manifests from a git repository with its Job table, buffers agent streams for browsers, masks
secrets, and prepares batch scripts. This project models the logic of those parts, in the files
under `web/lib`, and proves what they promise.

Code that changes things step by step is a class or a method with a loop, proved equal to a function
on values; the promises are lemmas about those functions. Where the code does not keep a promise the
condition under which it does is proved, with the inputs on which it fails.

| file | part |
|---|---|
| `Wrappers`, `Text`, `Base64`, `Counting` | options, cutting and joining lines, base64 (section 4 of RFC 4648), counting under permutation |
| `BastionMux`, `BastionShell`, `BastionCallbacks` | one shell serving many requests: the state machine, the object that refines it, and what callbacks bring about |
| `BastionDemux`, `BastionOutage` | cutting the character stream into lines and frames, and who gets which lines, in runs that end well and in runs that do not |
| `BastionUpload`, `RemoteShell` | what is written to the shell, what a POSIX shell does with it, and the throttled writer |
| `BastionDispatch` | which session a request goes to, and the idle sweep |
| `GitOpsModel`, `GitOpsReconciler`, `GitOpsReconcile`, `GitOpsRuns` | the reconcile pass: functions, object, theorems about one pass and about many |
| `GitOpsExport`, `GitOpsExporter`, `GitOpsCollision` | adopting running jobs into the repository: names, pruning, patches, fixed point, and patches that are swallowed |
| `ReplayBuffer` | events replayed to any number of readers, with waiters |
| `RedactConfig`, `RedactPlaces` | masking and unmasking a configuration tree |
| `SbatchPrelude`, `SbatchInject`, `SbatchScript` | taking Aura's blocks out of a batch script, putting them in, and both across a resubmission |
| `ShellQuote` | quoting against a POSIX shell's own reading (sections 2.2.1 and 2.2.2 of the POSIX.1-2017 Shell Command Language) |
| `SshKey` | mpint and `ssh-rsa` encoding (section 5 of RFC 4251, section 6.6 of RFC 4253), the OpenSSH container |
| `JobWatcher`, `TaskLog`, `HealthMonitor` | the sliding log tail, the per-task log chain, the cluster poll |

`dafny verify dfyconfig.toml` checks everything.

## How the environment appears

- What a session cannot choose (the random command ids, whether a write is accepted) is the `Env` of
  `BastionMux`. A callback is the finite list of things it does to its own session, so re-entrancy is
  as deep as the callbacks make it; that recursion is proved to end. A callback that submits itself
  again without end, while every write fails, is not such a list, and the code would not come back from it.
- Slurm's answers to the n-th submission and the n-th cancellation, YAML loading and dumping, and the
  content hash are fields of `GitOpsModel.Env` and `GitOpsExport.Tools`. The database is a map, with
  the unique key on cluster and source name; Slurm is the set of live jobs, numbered by each cluster for itself.
- Order the database does not promise (`findMany`) is a listing in any order, or a nondeterministic choice.
- `isSensitiveKey` is a predicate on key names, a parameter of everything in `RedactConfig`.

## What the code does not do

Where a lemma shows it, the lemma is named.

- The header comment of the multiplexer says that queued callers are sent on to the next session when
  one closes. The code fails each of them once (web/lib/ssh-bastion-mux.ts:230-242); that is what is modelled.
- The echo filter looks for `$?` behind the END prefix (line 201), but the command that is written
  ends in `$__AURA_RC` (line 291). A terminal that echoes it makes the request fail with -1 at once
  (`BastionDemux.EchoedRunLineFails`).
- The README of the repository speaks of a mirror in `running/`; the exporter writes to `jobs/` and
  deletes `running/`.
- Exported names can clash although no job name has a double underscore, because a slash becomes an
  underscore (`GitOpsExport.SlashMakesNamesClash`; the exact condition is `NamesDistinctExactly`).
- An adopted job whose manifest does not read back as a complete one (an empty partition or script, an
  unknown user) is up for removal by the next reconcile pass (`GitOpsExport.AdoptableExactly`; which
  exported rows survive is `GitOpsExport.ExportSurvivesExactly`).
- A patch that meets another row with the same name is swallowed after the push. When the job of that
  row has ended, the next pass takes the adopted manifest for a change of it and submits the job a
  second time, while the first runs on (`GitOpsCollision.RunsTwice`; when all patches go through is
  `PatchesSucceedExactly`).
- The removal pass drops a row even when its cancel failed, so the job can live on without one
  (`GitOpsReconcile.RemovalMayOrphan`). A failed submission of an unchanged manifest is tried again
  only if it was refused before a row was made; when `sbatch` itself failed it never is
  (`RetriedExactly`, `NextPassRetriesExactly`).
- An edited configuration without masks does not always come back as sent: an array sent where an
  object is stored comes back as an object, and a member called `__proto__` is lost
  (`RedactConfig.MaskFreeUnchanged` has the exact condition). Arrays are restored by position, so
  deleting an entry, wherever the array is, moves its secret to the next one
  (`DeletingAnEntryMovesItsSecret`; when a deletion is harmless is `DeletionLandsExactly`). Clearing a
  `secret` flag stores the mask as the value, except where `ClearingTheFlagExactly` says.
- The comment on `stripAuraPrelude` says that a script without Aura blocks is returned unchanged. One
  that mentions a marker and ends in blank lines loses them (`SbatchPrelude.StripUnchangedExactly`), and
  a header of either block that is never closed takes the rest of the script with it
  (`SbatchScript.UnclosedBlockTakesTheRest`; what survives in general is `FirstBlockExactly`).
- An `--output` directive below the first command is taken for one although `sbatch` does not read it
  (`SbatchScript.OutputBelowCommandStopsPinning`; when a stored script has an output file is `OutputIsReadExactly`).
- `encodeMpint` is not minimal for zero bytes (`SshKey.MpintMinimal`). A private key file cut short
  inside its public key is accepted whenever what the cut leaves of the type's name is the name of a
  supported type (`SshKey.CutFileExactly`); so a file refused whole, around an RSA certificate, is
  accepted when cut behind `ssh-rsa` (`SshKey.CutCertificateIsAccepted`).
- An array task in the queue makes the row of its array flap at every poll
  (`HealthMonitor.ArrayTaskFlaps`), and a poll that gets no listing completes every job in flight
  (`HealthMonitor.MissedPollHealsExactly`).

## Model

| member | source | states |
|---|---|---|
| `BastionMux.RunIsExactlyOnce` | web/lib/ssh-bastion-mux.ts:172-313 | over every run of enqueues, data, timeouts, closes and kills, with re-entrant callbacks and failing writes: each accepted request is completed once, in flight or queued, in order of acceptance; the timer is armed exactly while one is in flight; that one is the last command sent, with its own script; a warm live session with work has one in flight; a dead one holds nothing and has completed all it accepted |
| `BastionMux.StepKeepsRest` | web/lib/ssh-bastion-mux.ts:172-313 | every single event keeps that invariant and only ever adds to the history |
| `BastionMux.Finish` | web/lib/ssh-bastion-mux.ts:218-228 | finishing a command records exactly one completion with the lines heard and leaves the session settled (which callback runs, and what comes of it, is `EndLineReports` and `RequestsConserved`); with `Pump`, its recursion ends because the callback work left shrinks (callbacks being finite, as said above) |
| `BastionMux.Pump` | web/lib/ssh-bastion-mux.ts:265-308 | afterwards a command is in flight or nothing is queued, whatever the writes do |
| `BastionMux.RunActions` | web/lib/ssh-bastion-mux.ts:218-263 | a callback that re-enters the session keeps the ledger balanced and never makes more work than it carries |
| `BastionMux.Close` | web/lib/ssh-bastion-mux.ts:230-242 | closing completes everything accepted, in order, once: the command in flight with its lines so far and -1, each queued request with no lines and no code, none of them successful; a second close does nothing |
| `BastionMux.Enqueue` | web/lib/ssh-bastion-mux.ts:255-263 | a live session accepts, a dead one fails the request at once and keeps nothing of it |
| `BastionMux.OnTimeout` | web/lib/ssh-bastion-mux.ts:302-307 | a timeout fails the command in flight first, with its lines so far and -1, and leaves the session dead |
| `BastionMux.EventEndsSession` | web/lib/ssh-bastion-mux.ts:149-313 | a close or a kill, the warm-up timer before the session is warm and the timer of a running command leave the session dead and empty with everything accepted completed; a timer that is not running any more does nothing |
| `BastionCallbacks.RequestsConserved` | web/lib/ssh-bastion-mux.ts:184-313 | over every run, with failing writes, timeouts, closes and dropping callbacks: a request has been accepted or turned away exactly as often as it was submitted, from outside, by `onOk` of the requests that succeeded, by `onFail` of those that did not or were turned away, and by the callbacks of the lines each was told |
| `BastionCallbacks.EndLineReports` | web/lib/ssh-bastion-mux.ts:202-228 | at the END line a status of zero is recorded as success and `onOk` runs, any other as failure and `onFail` runs; what that callback submits, and nothing else, is accepted, in order, up to where it drops the session; then everything pending fails and the rest is turned away, in order |
| `BastionCallbacks.OutputRuns` | web/lib/ssh-bastion-mux.ts:212-216 | the same for the k-th line of output and the k-th stream callback |
| `BastionCallbacks.TimeoutReports` | web/lib/ssh-bastion-mux.ts:302-307 | on a timeout `onFail` runs on the live session, so what it submits is accepted; then everything pending fails, and what those failures submit is turned away |
| `BastionCallbacks.CloseTurnsAway` | web/lib/ssh-bastion-mux.ts:230-242 | a close turns away, in order, what the failure callbacks of all it fails submit, each with what its own failure submits in turn |
| `BastionCallbacks.EnqueueDead` | web/lib/ssh-bastion-mux.ts:255-263 | a request that comes to a dead session is turned away with whatever its failure submits |
| `BastionDemux.ChunkInvariance` | web/lib/ssh-bastion-mux.ts:172-182 | however the stream is cut into chunks, the session ends in the same state |
| `BastionDemux.Demultiplex` | web/lib/ssh-bastion-mux.ts:172-308 | over every run that leaves the session alive, with requests arriving from outside at any moment (between the chunks of an answer, or to an idle shell), callbacks queueing more, timers going off, and the stream cut anywhere: if the shell, warm or not yet, prints its answers (noise, START, body lines, END with a status) one after another, none before its command was sent, then the j-th request accepted gets exactly the j-th answer's lines in order and its status, success exactly when that is zero |
| `BastionDemux.DemultiplexFromStart` | web/lib/ssh-bastion-mux.ts:153-308 | the same from a fresh session, behind the banner and the ready marker: the requests completed are exactly the answered ones |
| `BastionOutage.AnsweredSoFar` | web/lib/ssh-bastion-mux.ts:172-313 | at every moment of every run, in mid-answer or in mid-line too, a live session has completed exactly the requests whose answers end among the lines read so far, each with its own answer, and nothing that happens later, the end of the session included, changes or repeats that |
| `BastionOutage.CutOff` | web/lib/ssh-bastion-mux.ts:172-313 | when a timeout, a close, a kill or a callback ends the session, in the middle of an answer or of a chunk, there is a line after which it died: requests answered up to there keep their answers, the next one fails and was told exactly the output of its answer so far, all others fail and were told nothing; everything accepted is completed, and nothing more happens |
| `BastionOutage.LineKills` | web/lib/ssh-bastion-mux.ts:184-228 | a line that ends the session is a line of output, which its command has still been told, or an END line, whose answer still counts |
| `BastionOutage.ActionsFail` | web/lib/ssh-bastion-mux.ts:218-242 | when a callback drops the session, whatever it had queued before, the command in flight fails with what it heard and all others fail having heard nothing |
| `BastionDemux.PrintedCarries` | web/lib/ssh-bastion-mux.ts:172-182 | terminal output, lines ended by carriage return and newline, is a text of the kind those theorems speak of |
| `BastionDemux.PipedCarries` | web/lib/ssh-bastion-mux.ts:172-182 | so is a stream with bare newlines, of which nothing is lost |
| `BastionDemux.RunServes` | web/lib/ssh-bastion-mux.ts:172-308 | the induction behind it: from anywhere in the stream, a run that leaves the session alive takes it exactly as many lines further as the run completes, whatever the shell still has to print |
| `BastionDemux.EnqueueKeepsPlace` | web/lib/ssh-bastion-mux.ts:255-308 | a request from outside, at any point of an answer or between answers, does not move the session's place in the stream |
| `BastionDemux.LineServed` | web/lib/ssh-bastion-mux.ts:184-228 | one line of the stream takes the session one line further: warm-up, noise, START, output or END |
| `BastionDemux.FrameCompletes` | web/lib/ssh-bastion-mux.ts:184-228 | one clean frame completes the command in flight with exactly its body and status, and nothing else |
| `BastionDemux.EndLineRecognised` | web/lib/ssh-bastion-mux.ts:196-209 | the END line is found and its status read behind any text glued to its front, negative numbers included |
| `BastionDemux.NoiseExactly` | web/lib/ssh-bastion-mux.ts:194-215 | before START, the lines that change nothing are exactly the echoes and the lines without markers |
| `BastionDemux.LineIsRead` | web/lib/ssh-bastion-mux.ts:194-216 | what any line does to a session with a command in flight, by the markers it holds: START, END, output, or nothing |
| `BastionDemux.EchoDropped` | web/lib/ssh-bastion-mux.ts:194-201 | an echoed first line, or one with `$?` behind the END prefix, is dropped at any moment |
| `Text.TrimIs` | web/lib/ssh-bastion-mux.ts:186-202 | trimming, as the marker tests use it, takes blanks off both ends and all of them |
| `BastionDemux.EchoedCommandFails` | web/lib/ssh-bastion-mux.ts:201-211 | a line with the END prefix and `$__AURA_RC` behind it ends the request with -1 |
| `BastionDemux.EchoedRunLineFails` | web/lib/ssh-bastion-mux.ts:201-291 | the run line of the command in flight, which is among the lines written for it, is such a line |
| `BastionDemux.WarmsUp` | web/lib/ssh-bastion-mux.ts:184-193 | banner lines are passed over, the ready marker sends exactly the first queued command |
| `BastionUpload.UploadFidelity` | web/lib/ssh-bastion-mux.ts:281-293 | the shell's heredoc takes in lines of at most 76 characters that join and decode to the exact script, and execution follows it, for every script |
| `RemoteShell.CommandRuns` | web/lib/ssh-bastion-mux.ts:277-293 | a POSIX shell fed what is written for a request runs exactly the request's script, once; what it prints meanwhile is exactly one frame, with the output and the exit code of that script; and both temporary files are gone |
| `BastionUpload.HeredocLinesSafe` | web/lib/ssh-exec.ts:617-630 | no uploaded line equals the delimiter or holds a newline |
| `Base64.RoundTrip` | web/lib/ssh-bastion-mux.ts:281-281 | decoding an encoded byte string gives it back (section 4 of RFC 4648) |
| `Base64.KnownEncodings` | web/lib/ssh-bastion-mux.ts:281-281 | the encodings that section 10 of RFC 4648 gives |
| `Base64.AlphabetIs` | web/lib/ssh-bastion-mux.ts:281-281 | the alphabet, spelled out |
| `BastionUpload.ThrottledWriter.Tick` | web/lib/ssh-exec.ts:656-663 | after every tick what has been written is the text up to the offset; another tick is pending exactly while text is left, the process lives and the write went through |
| `BastionUpload.ThrottleFinishes` | web/lib/ssh-exec.ts:654-664 | the whole command is delivered after finitely many ticks exactly when the chunk size is at least one |
| `BastionShell.BastionSession.Pump` | web/lib/ssh-bastion-mux.ts:265-308 | the method's whole new state is the function's |
| `BastionShell.BastionSession.FinishCurrent` | web/lib/ssh-bastion-mux.ts:218-228 | the method's whole new state is the function's, on a live and on a dying session |
| `BastionShell.BastionSession.OnClose` | web/lib/ssh-bastion-mux.ts:230-242 | the loop over the queue fails each request once, and the new state is `Close` |
| `BastionShell.BastionSession.Enqueue` | web/lib/ssh-bastion-mux.ts:255-263 | the new state is the function's for live and dead sessions |
| `BastionShell.BastionSession.OnLine` | web/lib/ssh-bastion-mux.ts:184-216 | the new state is the function's |
| `BastionShell.BastionSession.OnData` | web/lib/ssh-bastion-mux.ts:172-182 | the loop over the buffer handles exactly the complete lines and keeps the rest |
| `BastionShell.BastionSession.OnTimeout` | web/lib/ssh-bastion-mux.ts:302-307 | the new state is the function's |
| `BastionShell.BastionSession.Kill` | web/lib/ssh-bastion-mux.ts:310-313 | killing closes |
| `BastionShell.SessionLoadIsOutstanding` | web/lib/ssh-bastion-mux.ts:246-253 | a session's load is the number of requests accepted and not completed |
| `BastionDispatch.BastionPool.Enqueue` | web/lib/ssh-bastion-mux.ts:332-358 | dead sessions go; a new session opens exactly when every live one is busy and there is room; otherwise the request joins one of least load; it waits behind another only when the pool is full and every session is busy; no other session changes; the cap holds |
| `BastionDispatch.BastionPool.PickLeast` | web/lib/ssh-bastion-mux.ts:340-348 | the loop finds a session of least load, none exactly when there is none |
| `BastionDispatch.LoadIsOutstanding` | web/lib/ssh-bastion-mux.ts:251-253 | over all sessions, total load is accepted minus completed |
| `BastionDispatch.BastionPool.Sweep` | web/lib/ssh-bastion-mux.ts:360-401 | a pool is evicted exactly when idle, and that completes and refuses nothing |
| `BastionDispatch.BastionPool.Kill` | web/lib/ssh-bastion-mux.ts:364-367 | every session is closed and the pool is empty |
| `GitOpsReconcile.Converges` | web/lib/gitops-jobs.ts:347-472 | when every call succeeds, the owned rows are exactly one per resolvable unconflicted manifest, with its reference, and the untouched old rows of conflicted keys that some resolvable manifest claims |
| `GitOpsReconcile.OrderIndependent` | web/lib/gitops-jobs.ts:310-472 | which keys are owned, with which references, does not depend on the order files are walked |
| `GitOpsReconcile.SecondPassIdle` | web/lib/gitops-jobs.ts:347-472 | once the rows follow the repository, a pass changes nothing: no submission, no cancel, no deletion, no error |
| `GitOpsReconcile.Accounting` | web/lib/gitops-jobs.ts:312-452 | under any failures, scanned = submitted + resubmitted + unchanged + skipped + errors |
| `GitOpsReconcile.NeverDoubles` | web/lib/gitops-jobs.ts:370-452 | under any pattern of failures, from truthful rows, the loop never launches a key of an SSH cluster while the job its row named is live on that cluster (that rows name the jobs launched is `TurnSubmits`); numbers may coincide between clusters |
| `GitOpsReconcile.HandleLaunches` | web/lib/gitops-jobs.ts:370-452 | one turn launches at most one job, which doubles a live one exactly when the cluster is not reached over SSH and the row's job was live |
| `GitOpsRuns.TurnSubmits` | web/lib/gitops-jobs.ts:387-452 | a turn that submits sends its own manifest for the key it resolves to; when the job starts, the key's row is running and carries the manifest's reference and the number of the one job that became live; when `sbatch` fails, a failed row without a number; when refused, none; new, replaced and failed submissions are counted as such |
| `GitOpsRuns.OneLiveJob` | web/lib/gitops-jobs.ts:347-472 | over any number of passes from an empty table, whatever the cluster answers and whatever ends or is submitted by others in between: on an SSH cluster, of all the jobs ever launched for a key at most one is live, if no submission leaked and no removal left its job running |
| `GitOpsRuns.LeakDoubles` | web/lib/gitops-jobs.ts:370-452 | a leaked submission does break that: the next version of the manifest is launched beside the leaked job |
| `GitOpsRuns.TurnWithoutCounts` | web/lib/gitops-jobs.ts:353-412 | a turn that submits nothing is counted once: skipped for an unknown cluster, an unknown user or a conflict, unchanged, or as an error when a cancel failed |
| `GitOpsRuns.TurnCancels` | web/lib/gitops-jobs.ts:421-437 | a cancel is counted exactly when an active job is replaced |
| `GitOpsRuns.RemovalCancels` | web/lib/gitops-jobs.ts:455-471 | the removal pass counts every row that it drops |
| `GitOpsRuns.CancelReports` | web/lib/gitops-jobs.ts:178-262 | something is sent only to an SSH cluster for a row with a number; the job is gone unless that is denied; success is reported, and the row marked, when nothing was sent or the acknowledgement came back |
| `GitOpsRuns.PassOwnIds` | web/lib/gitops-jobs.ts:347-472 | a pass never gives two rows the same id |
| `GitOpsRuns.ScanNext` | web/lib/gitops-jobs.ts:310-326 | each further file adds nothing unless its name ends in `.yaml` or `.yml`; then it is counted and is a manifest or skipped with its reason |
| `GitOpsRuns.YamlExactly` | web/lib/gitops-jobs.ts:311-311 | which names count |
| `GitOpsRuns.ManifestExactly` | web/lib/gitops-jobs.ts:144-174 | a document is a manifest exactly when it is of kind `Job` and has all five fields, none empty, and the manifest has these |
| `GitOpsRuns.RefusalExactly` | web/lib/gitops-jobs.ts:144-174 | otherwise the reason is the first thing wrong with it |
| `GitOpsReconcile.MatchingRowLeftAlone` | web/lib/gitops-jobs.ts:347-472 | a row that carries the reference of a resolvable manifest for its key is not cancelled, deleted or launched again, whatever else the repository holds |
| `GitOpsReconcile.UnsoughtRowDropped` | web/lib/gitops-jobs.ts:454-472 | a row that no valid, resolvable manifest asks for is gone after the pass |
| `GitOpsReconcile.RemovalMayOrphan` | web/lib/gitops-jobs.ts:461-471 | the removed row's job lives on exactly when nothing was sent or `scancel` was denied |
| `GitOpsReconcile.RetriedExactly` | web/lib/gitops-jobs.ts:391-451 | after a failed submission, new or in place of an old row, the next turn of the unchanged manifest submits again exactly when it had been refused; otherwise it changes nothing and counts as unchanged |
| `GitOpsReconcile.NextPassRetriesExactly` | web/lib/gitops-jobs.ts:370-472 | the same over two whole passes, whatever else is in the repository and whatever the cluster answers |
| `GitOpsReconcile.PassAtKey` | web/lib/gitops-jobs.ts:347-472 | at the key of an unconflicted manifest a whole pass does what that manifest's turn does, and nothing else |
| `GitOpsReconcile.TurnLaunches` | web/lib/gitops-jobs.ts:370-452 | a turn for an unconflicted key submits exactly when its row is missing, or carries another reference and its job, if active, was reported cancelled |
| `GitOpsReconcile.PassSpares` | web/lib/gitops-jobs.ts:347-472 | a live job that no owned row names runs on through a whole pass, and all that the pass launches is launched beside it |
| `GitOpsReconcile.RowSurvivesExactly` | web/lib/gitops-jobs.ts:347-472 | when every call succeeds, a row comes through a pass as it was exactly when a resolvable manifest asks for its key and the key is conflicted or the reference is the row's |
| `GitOpsReconcile.TwoClaims` | web/lib/gitops-jobs.ts:347-364 | two manifests that resolve to one key make it a conflict |
| `GitOpsReconcile.ConflictedExactly` | web/lib/gitops-jobs.ts:336-359 | a key is conflicted exactly when two manifests resolve to it |
| `GitOpsReconciler.Reconciler.RunReconcile` | web/lib/gitops-jobs.ts:265-472 | the loops over files, manifests and rows, with their in-place updates, end in exactly the state the theorems speak of |
| `GitOpsReconciler.Reconciler.DetectConflicts` | web/lib/gitops-jobs.ts:347-364 | the conflict set is exactly the keys claimed by more than one manifest |
| `GitOpsReconciler.Reconciler.Handle` | web/lib/gitops-jobs.ts:370-452 | one turn of the loop is the function's |
| `GitOpsReconciler.Reconciler.CancelSlurmJob` | web/lib/gitops-jobs.ts:178-261 | the row is marked exactly when success is reported; what is live changes as the cluster answered |
| `GitOpsReconciler.Reconciler.RemoveUnseen` | web/lib/gitops-jobs.ts:454-472 | the removal loop over the listing is the function's |
| `GitOpsReconciler.Reconciler.Scan` | web/lib/gitops-jobs.ts:310-326 | every YAML file is counted and either parsed or skipped with its reason |
| `GitOpsExport.NamesDistinctExactly` | web/lib/gitops-jobs.ts:644-664 | when neighbours on a cluster have distinct tags and tags have no underscore, exported names are pairwise distinct per cluster exactly when no exported job that is the first of its safe name has a safe name equal to the safe name and tag of a job that repeats an earlier one |
| `GitOpsExport.NamesDistinct` | web/lib/gitops-jobs.ts:644-664 | so they are when no safe name has a double underscore |
| `GitOpsExport.SlashMakesNamesClash` | web/lib/gitops-jobs.ts:652-664 | three jobs without a double underscore in their names whose exported names clash |
| `GitOpsExport.NameTried` | web/lib/gitops-jobs.ts:644-664 | the name tried is the job's own, else the one its script sets, else its Slurm number, else its short id; slashes, backslashes and NULs become underscores; the tag is the Slurm number or the short id |
| `GitOpsExport.PlanReadsBack` | web/lib/gitops-jobs.ts:666-698 | if loading inverts dumping, the file written for a job reads back as its name, cluster, user, partition and script, under the path and the reference said |
| `GitOpsExport.PathInjective` | web/lib/gitops-jobs.ts:666-671 | cluster and name can be read back from a path |
| `GitOpsExport.PathsDistinct` | web/lib/gitops-jobs.ts:666-671 | distinct names give distinct files |
| `GitOpsExport.PruneExactly` | web/lib/gitops-jobs.ts:725-790 | if deletions succeed, the headed YAML files left are exactly those written; one without the header goes exactly when its row exists and is terminal; files outside the tree stay |
| `GitOpsExport.HandStaleExactly` | web/lib/gitops-jobs.ts:754-778 | a file without the exporter's first line is stale exactly when it names a job and a known cluster, and a row of that cluster and name is completed, failed or cancelled |
| `GitOpsExport.HeaderExactly` | web/lib/gitops-jobs.ts:746-746 | the exporter's own files are told by their first line |
| `GitOpsExport.PruneSpares` | web/lib/gitops-jobs.ts:726-744 | nothing outside the jobs tree, and nothing that is not named `.yaml`, is pruned |
| `GitOpsExport.PatchLands` | web/lib/gitops-jobs.ts:805-837 | a patch that is accepted stays, whatever becomes of the other patches: the row carries its own manifest's name and reference; its display name is the one tried if it had none, and its own otherwise |
| `GitOpsExport.PatchesKeep` | web/lib/gitops-jobs.ts:805-837 | patching keeps the unique key, the rows, their status and their Slurm numbers, swallowed errors included |
| `GitOpsExport.AdoptableExactly` | web/lib/gitops-jobs.ts:672-694 | an adopted manifest reads back as one the reconciler can resolve exactly when its fields are non-empty and its cluster and user are known |
| `GitOpsExport.ExportIsFixedPoint` | web/lib/gitops-jobs.ts:626-837 | after export and push the next pass neither cancels, deletes nor resubmits an exported job whose own row was patched, whatever became of the other patches, whatever else is in the repository and even when a hand-written manifest claims its name |
| `GitOpsExport.ExportSurvivesExactly` | web/lib/gitops-jobs.ts:626-837 | when every call succeeds, a patched row comes through the next pass exactly when a resolvable manifest asks for its key with the reference written, or any does for a conflicted key |
| `GitOpsCollision.PatchesSucceedExactly` | web/lib/gitops-jobs.ts:805-837 | every patch goes through exactly when, in the rows before the first one, each plan's row is there, any other row that holds its key is patched earlier, and none of the earlier ones gets the same name in its cluster |
| `GitOpsCollision.Swallowed` | web/lib/gitops-jobs.ts:805-837 | a row whose key is held by a row that is not exported keeps its old name and reference, or none, through all patches |
| `GitOpsCollision.RunsTwice` | web/lib/gitops-jobs.ts:347-837 | when a finished row still holds the name of an exported job, the next pass submits the adopted manifest exactly when the finished row's reference is another, whatever the cluster answers, while the exported job itself runs on |
| `GitOpsExporter.Exporter.ExportRunning` | web/lib/gitops-jobs.ts:561-837 | the writing, pruning and patching loops end in exactly the repository and rows the theorems speak of; rows change only after the push |
| `GitOpsExporter.Exporter.Prune` | web/lib/gitops-jobs.ts:725-790 | the files left are exactly those not pruned |
| `ReplayBuffer.RunKeeps` | web/lib/nats.ts:107-190 | the invariant holds after every interleaving of pushes and readers' turns |
| `ReplayBuffer.ReadersSeePrefixes` | web/lib/nats.ts:179-190 | each reader's output is a prefix of the events, ending at the first reply once it has returned; a parked one has read all and no reply has come; the branch that returns with nothing is never taken |
| `ReplayBuffer.NoLostWakeup` | web/lib/nats.ts:107-112 | after a push no reader is parked |
| `ReplayBuffer.EveryReaderFinishes` | web/lib/nats.ts:179-190 | once a reply is there, every reader left to itself returns with the same sequence |
| `ReplayBuffer.OpenStartsAtZero` | web/lib/nats.ts:170-191 | a first open makes a reader at the first event that has yielded nothing, whatever has been pushed, and leaves the others alone; a second open changes nothing |
| `ReplayBuffer.RunHolds` | web/lib/nats.ts:137-191 | in every run the readers are exactly those opened and the events exactly those pushed, in order |
| `ReplayBuffer.OpenedReaderFinishes` | web/lib/nats.ts:137-191 | a reader opened at any moment of a run in which a reply was pushed returns once it has had as many turns, among whatever else goes on, as there are events up to the reply, and has yielded exactly these |
| `ReplayBuffer.StreamBuffer.PushEvent` | web/lib/nats.ts:107-112 | append, note the reply, wake every waiter: the whole new state |
| `ReplayBuffer.StreamBuffer.OpenReader` | web/lib/nats.ts:170-178 | a new reader starts at the first event, whenever it comes |
| `ReplayBuffer.StreamBuffer.AdvanceReader` | web/lib/nats.ts:179-190 | one turn of the generator's loop, with what it yields |
| `RedactConfig.RoundTrip` | web/lib/redact-config.ts:36-59 | unmasking a masked tree from itself gives it back exactly when it has no `__proto__` member |
| `RedactPlaces.MaskedExactly` | web/lib/redact-config.ts:36-58 | at every path: a non-empty string under a sensitive name, or under `value` beside a `secret` that is true, is shown as the mask; every other string, number, flag and null is shown as it is; containers keep their kind, arrays their length; only what is called `__proto__` is gone |
| `RedactPlaces.RestoredExactly` | web/lib/redact-config.ts:107-129 | at every path along which the two trees agree in kind: a mask at such a place is replaced by what is stored there, or the empty string; everything else is stored as sent, a mask at any other place included |
| `RedactConfig.RecoversExactly` | web/lib/redact-config.ts:36-129 | a masked tree restored from any tree is recovered exactly when that tree has the same string at every secret position, no array meets an object and there is no `__proto__` member; `RoundTrip` is its diagonal |
| `RedactConfig.RedactIdempotent` | web/lib/redact-config.ts:36-59 | masking twice is masking once |
| `RedactConfig.MaskHidesOnlySecrets` | web/lib/redact-config.ts:36-59 | two trees look the same masked exactly when they differ in nothing but non-empty string secrets |
| `RedactConfig.MaskFreeUnchanged` | web/lib/redact-config.ts:107-129 | a tree without masks at secret positions comes back unchanged exactly when no array in it meets a stored object and no object that meets a stored one has a `__proto__` member |
| `RedactConfig.EditIsLocal` | web/lib/redact-config.ts:107-129 | whether an edit anywhere in the masked tree is stored as meant, the value sent and the value meant given apart, depends only on the subtree it is made in: everything else is restored |
| `RedactConfig.EditStoresExactly` | web/lib/redact-config.ts:107-129 | sending any value other than the mask at any path stores the tree with the meant value there exactly when that value, unmasked against the stored subtree, is the meant one |
| `RedactConfig.EditOneValue` | web/lib/redact-config.ts:107-129 | putting a value without masks anywhere in the masked tree, then unmasking, is the stored tree with that edit exactly when nothing in the value is rebuilt |
| `RedactConfig.DeletionLandsExactly` | web/lib/redact-config.ts:110-112 | deleting any entry of an array anywhere in the masked tree stores the tree without it, all else as it was, exactly when each later entry is recovered from the one before it |
| `RedactConfig.DeletingAnEntryMovesItsSecret` | web/lib/redact-config.ts:110-112 | a secret entry behind a deleted one is stored with the deleted one's value, in any array anywhere in the tree, which is wrong whenever the values differ |
| `RedactConfig.ClearingTheFlagExactly` | web/lib/redact-config.ts:114-124 | clearing the `secret` flag of an object anywhere in the masked tree stores that edit exactly when there is no masked value, or its key's name is sensitive, or the value is the mask |
| `RedactConfig.ClearingTheFlagStoresTheMask` | web/lib/redact-config.ts:116-124 | otherwise, anywhere in the tree, the mask is stored as the value |
| `RedactConfig.NewEntriesAreStoredAsSent` | web/lib/redact-config.ts:110-112 | in an array anywhere in the tree, an entry with no stored counterpart is stored as sent |
| `SbatchPrelude.StripAuraPrelude` | web/lib/submit-job.ts:201-228 | the loop with its two flags computes the specified text |
| `SbatchPrelude.StripIdempotent` | web/lib/submit-job.ts:201-228 | stripping twice is stripping once |
| `SbatchPrelude.StripUnchangedExactly` | web/lib/submit-job.ts:199-228 | a script is unchanged exactly when it mentions no marker, or opens no block and does not end in a blank line |
| `SbatchScript.MarkersExactly` | web/lib/submit-job.ts:201-228 | the markers spelled out: which lines begin and end the two kinds of block, and which scripts are looked at |
| `SbatchInject.InjectPrelude` | web/lib/submit-job.ts:230-248 | the index loop inserts below the shebang and the leading comments and blank lines |
| `SbatchInject.InjectSplit` | web/lib/submit-job.ts:230-248 | the injected script has the script's lines in order, with the prelude's between two of them |
| `SbatchInject.InjectWhere` | web/lib/submit-job.ts:230-248 | the prelude stands below the longest run of blank lines and comments at the top, so below a shebang and in front of every command |
| `SbatchInject.InjectKeepsDirectives` | web/lib/submit-job.ts:230-248 | whatever prelude holds no directive, the directives of the leading block that `sbatch` reads are the same, in the same order |
| `SbatchInject.AssembledLines` | web/lib/submit-job.ts:446-470 | the secrets block and the fragments are passed over whole by a scan and hold no directive |
| `SbatchInject.SecretsBlockIs` | web/lib/submit-job.ts:453-466 | the block keeps the file's path, sources the file if it can be read with every assignment exported, removes it, and unsets the variable |
| `SbatchScript.StripUndoesInject` | web/lib/submit-job.ts:201-248 | stripping an injected script gives its own lines back, blank ones aside, exactly when none of them opens a block |
| `SbatchScript.PreludeKeepsDirectives` | web/lib/submit-job.ts:446-471 | `sbatch` reads the same directives with the assembled prelude in |
| `SbatchScript.ResubmissionReplacesPrelude` | web/lib/submit-job.ts:360-471 | stripping and injecting a new prelude gives what injecting it into the original would have given: preludes never stack |
| `SbatchScript.FirstBlockExactly` | web/lib/submit-job.ts:201-228 | of a script with a block of either kind, the lines above stay and of those below exactly what a scan keeps below the first line that ends the block; a secrets header alone, with no marker in the script, is left |
| `SbatchScript.RestSurvivesExactly` | web/lib/submit-job.ts:208-225 | something below the header survives exactly when a line below it ends the block and a scan keeps something further down |
| `SbatchScript.UnclosedBlockTakesTheRest` | web/lib/submit-job.ts:208-225 | a header of either kind without a line that ends its block takes every line below it |
| `SbatchScript.PinOutput` | web/lib/submit-job.ts:480-490 | the splice computes the specified text |
| `SbatchScript.PinOnce` | web/lib/submit-job.ts:480-490 | every stored script names an output file, and pinning again changes nothing |
| `SbatchScript.PinnedWhere` | web/lib/submit-job.ts:480-490 | the pinned line names the file in the directory and stands at the top, or second under a shebang; without it the lines are the script's own |
| `SbatchScript.ShebangStays` | web/lib/submit-job.ts:230-490 | a shebang is still the first line of the stored script, with or without a prelude |
| `SbatchScript.OutputOptionExactly` | web/lib/submit-job.ts:484-484 | what is taken for an output option: `#SBATCH`, blanks, `--output` or `-o`, and `=` or a blank |
| `SbatchScript.PinAddsOneDirective` | web/lib/submit-job.ts:480-490 | pinning puts exactly one directive in front of those `sbatch` reads |
| `SbatchScript.OutputIsReadExactly` | web/lib/submit-job.ts:473-490 | a stored script has an output directive that `sbatch` reads exactly when nothing looked like one, so that it was pinned, or one of the directives read already was one |
| `SbatchScript.OutputBelowCommandStopsPinning` | web/lib/submit-job.ts:484-484 | an output directive below a command is one that is not read and keeps the script from being pinned |
| `SbatchScript.ResubmissionKeepsPin` | web/lib/submit-job.ts:360-490 | a pinned script, resubmitted with another prelude and directory, keeps its first directive and gets no second |
| `ShellQuote.OneWord` | web/lib/submit-job.ts:178-180 | the shell reads a quoted or escaped string as one word equal to it |
| `ShellQuote.EscapeIsOnePiece` | web/lib/sacctmgr.ts:61-64 | wherever it stands in a command, an escaped string, quoted or not, adds exactly itself to the current word |
| `ShellQuote.ArgumentsSurvive` | web/lib/sacctmgr.ts:61-64 | a line of escaped arguments is one command with exactly those arguments |
| `ShellQuote.SecretsSurvive` | web/lib/submit-job.ts:549-552 | sourcing the secrets file runs one export for each secret, with exactly its value, in order |
| `SshKey.EncodeMpint` | web/lib/ssh-key.ts:174-191 | the loop and the buffer writes produce the specified bytes |
| `SshKey.MpintValue` | web/lib/ssh-key.ts:171-191 | read as two's complement, the encoding is the unsigned value of the input |
| `SshKey.MpintMinimal` | web/lib/ssh-key.ts:174-191 | the encoding is minimal exactly for non-zero values and for the empty input |
| `SshKey.MpintCanonical` | web/lib/ssh-key.ts:174-191 | equal non-zero values have equal encodings, whatever leading zeros came in |
| `SshKey.BuildRsaWire` | web/lib/ssh-key.ts:51-67 | the offsets and copies lay out exactly string, mpint e, mpint n |
| `SshKey.RsaRoundTrip` | web/lib/ssh-key.ts:51-67 | parsing the built blob strictly recovers the type name and the values of e and n |
| `SshKey.ParseOpenSSHFormat` | web/lib/ssh-key.ts:96-162 | the reader with its moving offset computes the specified outcome, errors included |
| `SshKey.ContainerOutcome` | web/lib/ssh-key.ts:96-162 | encrypted and empty containers are refused; otherwise the line carries as much of the announced key as the file holds |
| `SshKey.RsaContainer` | web/lib/ssh-key.ts:51-162 | an unencrypted container around an RSA key yields its line, whose base64 decodes and parses to the key's numbers |
| `SshKey.WholeFileExactly` | web/lib/ssh-key.ts:96-162 | a whole file begins with `openssh-key-v1` and a NUL; its line is type, base64 and comment for keys of the five types, and any other type is refused |
| `SshKey.U32Is` | web/lib/ssh-key.ts:51-67 | lengths are written most significant byte first |
| `SshKey.HighBitsDropped` | web/lib/ssh-key.ts:115-121 | names are read without the high bits of their bytes, and that is all that is lost |
| `SshKey.CutFileExactly` | web/lib/ssh-key.ts:96-162 | a whole unencrypted file around a key of any type, cut anywhere, is accepted exactly when the cut leaves the length of the type's name and a piece of the name that is a supported type; the line carries that type and what is left of the key |
| `SshKey.CutLine` | web/lib/ssh-key.ts:144-162 | what the parser makes of the first bytes of a key of any type, with the error it gives otherwise |
| `SshKey.CutKeyIsAccepted` | web/lib/ssh-key.ts:122-162 | for an RSA key in particular: a file cut inside the key is accepted exactly when the first eleven bytes, the whole of its type, are left |
| `SshKey.CutCertificateIsAccepted` | web/lib/ssh-key.ts:144-162 | a file around an RSA certificate is refused whole and accepted as an RSA key when cut behind the first eleven bytes of its key |
| `JobWatcher.Watcher.PushCaptured` | web/lib/job-watcher.ts:189-197 | the byte count is exact and the lines kept are the longest suffix of all pushed that fits, or the last alone |
| `JobWatcher.CapturedIsLongest` | web/lib/job-watcher.ts:189-197 | dropping lines one at a time from the front leaves that suffix, after any pushes |
| `JobWatcher.LongestTailUnique` | web/lib/job-watcher.ts:189-197 | there is only one such suffix |
| `JobWatcher.FlushFits` | web/lib/job-watcher.ts:200-207 | what is written is shorter than the cap, unless it is a single line |
| `JobWatcher.Watcher.Flush` | web/lib/job-watcher.ts:200-207 | the flush writes exactly the captured suffix, exactly when something was pushed |
| `TaskLog.RunKeeps` | web/lib/task-log.ts:14-29 | the invariant of the chain holds after every interleaving |
| `TaskLog.OneUpdateAtATime` | web/lib/task-log.ts:14-22 | a task never has two updates in flight |
| `TaskLog.LogInCallOrder` | web/lib/task-log.ts:14-22 | a task's log is the lines whose update succeeded, in call order |
| `TaskLog.CallsAreKept` | web/lib/task-log.ts:14-21 | the entries are the calls made, in order, each with its own task and line |
| `TaskLog.UpdateWrites` | web/lib/task-log.ts:18-22 | an update that goes through adds exactly its line to its task's log, one that fails nothing, and other logs stay |
| `TaskLog.PendingStaysQueued` | web/lib/task-log.ts:23-27 | clean-up never removes an entry while a call is pending: the map holds the newest one |
| `TaskLog.MapIsBounded` | web/lib/task-log.ts:24-27 | when all calls of a task have settled and cleaned up, the map has forgotten it |
| `TaskLog.NeverStuck` | web/lib/task-log.ts:16-22 | failures block nothing: the first unsettled call is running or due |
| `TaskLog.TaskLogs.AppendTaskLog` | web/lib/task-log.ts:14-29 | an append chains to the map's entry and replaces it |
| `TaskLog.TaskLogs.StartUpdate` | web/lib/task-log.ts:16-21 | a call starts its update once the one it is chained to has settled |
| `TaskLog.TaskLogs.SettleUpdate` | web/lib/task-log.ts:18-22 | a successful update adds its line to the log, a failed one adds nothing |
| `TaskLog.TaskLogs.Finally` | web/lib/task-log.ts:24-27 | clean-up deletes the entry only when it is still this call's |
| `HealthMonitor.CountQueue` | web/lib/health-monitor.ts:172-210 | the loop's counters are what the listing says: by reason, held, running, oldest, and the last state of every job; the counts by reason add up to the pending count, and no more are held than pending |
| `HealthMonitor.CountersMean` | web/lib/health-monitor.ts:183-210 | what the counters mean line by line: the state column for pending and running, the reason column for held and for each reason, the age of the oldest pending line, and the last state of every job |
| `HealthMonitor.NumbersRead` | web/lib/health-monitor.ts:320-323 | an id counts as the number it begins with, a plus sign aside |
| `HealthMonitor.UpperNames` | web/lib/health-monitor.ts:189-189 | state names are read in any case |
| `HealthMonitor.JobTable.Reconcile` | web/lib/health-monitor.ts:281-349 | both loops, in any order of rows, apply one function to every row and write exactly the touched ones |
| `HealthMonitor.EmptyStateCompletes` | web/lib/health-monitor.ts:292-301 | an entry without a state counts as none: its job's row is completed |
| `HealthMonitor.TwoPassesAreOne` | web/lib/health-monitor.ts:287-349 | with plain ids the two passes are one function of the row's status and the job's state |
| `HealthMonitor.PollIdempotent` | web/lib/health-monitor.ts:287-349 | polling the same queue again leaves every row as it is |
| `HealthMonitor.SecondPollIsQuietExactly` | web/lib/health-monitor.ts:287-349 | the second poll writes to a row exactly when its number is live under another id only |
| `HealthMonitor.PlainIdsAreQuiet` | web/lib/health-monitor.ts:287-349 | with plain ids it writes to none |
| `HealthMonitor.ArrayTaskFlaps` | web/lib/health-monitor.ts:293-349 | a running array task has its row completed and revived by every poll |
| `HealthMonitor.MissedPollHealsExactly` | web/lib/health-monitor.ts:287-349 | after a poll without a listing, the next one puts a row right exactly when its job is gone, running or pending by then, or the row was pending and its number is live under another id |
| `HealthMonitor.AlertsAlternate` | web/lib/health-monitor.ts:213-219 | unreachable and recovered alternate over every run of polls, beginning and ending as the first and last poll say |
| `HealthMonitor.Controller.Observe` | web/lib/health-monitor.ts:213-357 | a poll reports the transition and leaves the badge telling the controller's state |

## Left out

- Process spawning, SSH, git, NATS and database calls, temp files and timers as wall-clock time: they appear as outcomes and events.
- Error texts of completions; that a callback throws (the code swallows it); callbacks that reach other sessions through the pool.
- CommandRuns: the shell is modelled for the words, lists, parameters and commands that the written lines use; the id is one of lower-case letters and digits, as hexadecimal ones are, and the script's own effect on files is its output and exit code only.
- OneLiveJob: speaks of the loop's own jobs on SSH clusters, with the two exceptions it names (`LeakDoubles`, `RemovalMayOrphan`); rows that other parts of the program add to the owned ones in between are not part of it.
- Demultiplex: like `AnsweredSoFar` and `CutOff`, on these terms: the stream is characters, so the decoding of bytes at chunk borders is not modelled, and standard error is part of the same stream; command ids are required not to hold `=`, which hexadecimal ids never do, and writes to succeed while the session lives.
- The unread list of lines the session keeps beside `onStream`: the model records the lines handed over instead.
- The map of pools by target key, and dropping a pool explicitly.
- The per-call shell's own line splitting, which does not buffer partial lines.
- RedactConfig: the order of an object's members, properties inherited from prototypes, and the list of sensitive key hints.
- Masking of exports inside scripts (web/lib/redact-config.ts:82-105).
- GitOps: YAML fields that are not strings, path normalisation, the checkout and the push, and database calls that fail while Slurm is being told.
- NeverDoubles: speaks of the manifest loop only, because the removal pass ignores what a cancel reports.
- ExportIsFixedPoint: requires loading to invert dumping, and speaks of jobs whose row was patched; when a patch is swallowed is said in `GitOpsCollision`.
- RunsTwice: takes the row that holds the name not to be exported itself, as rows of finished jobs never are, the exported row to have had no name so far, and job numbers to be unique per cluster in the table.
- The resolution of job names from scripts, tracker adapters and credentials: fragments are given as titles and lines.
- SbatchInject: a fragment's lines must not themselves start with the closing marker or a directive, as a value with a line break could make them.
- ShellQuote: characters that start expansions, redirections or lists are refused by the reader rather than interpreted; a NUL, which no shell word can hold, is not singled out.
- SshKey: the PEM text around the base64, JWK decoding, and the types other than RSA on the building side.
- HealthMonitor: parsing of the listing's sections, nodes, storage, stuck-job alerts, and the clock, whose ages are part of the lines; upper-casing is on ASCII.
- ReplayBuffer: the reader of an unknown request, and the deletion of a buffer after fifteen minutes.
