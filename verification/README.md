# Baselithbot: verified models

Dafny models of the algorithms and state machines inside Baselithbot, with proofs of what they
promise. Check everything with `dafny verify dfyconfig.toml`.

How to read it. Where the source changes an object step by step, the model is a class with the
same fields; each of its methods is proved equal to a function on the object's abstract value
(`Abs()`), and the lemmas about whole runs are stated for those functions. What such a function
makes of its input is said again without it: the lemmas named `...Exactly` and their like give each
operation's effect, or the state after any run, in terms of the inputs alone. Where several parties
interleave, one step of the state machine is one stretch of the source without an `await`. The
vision model, the tools, the operators, the clock and the network are arbitrary inputs: what is
proved holds whatever they answer.

The parts:

* **Replay store** (`ReplayStore`, `ReplayReads`): two SQLite connections, step inserts committed
  in batches of five, readers that flush first. A crash loses at most four step inserts; every read
  equals the same query on one plain map of all writes so far.
* **Code edits** (`PyStrings`, `TextLines`, `Workspace`, `UnifiedDiff`, `EmptyRanges`, `DiffFiles`, `LinePatcher`,
  `PatcherFiles`, `MultiFileEditor`): the unified-diff applier and its inverse, the descending line
  splicer, the undo log. Text is read with Python's universal newlines, so a carriage return does
  not survive a read, and the exact conditions of the round trips say so.
* **Approvals** (`ApprovalGate`): submitters, operators and timeouts over every interleaving.
* **Desktop** (`DesktopLane`, `DesktopAgent`): the lane that serialises runs, and the agent loop.
* **Browser** (`BrowserExtraction`): the extraction store, its progress signature, the run loop.
* **Time and fairness** (`CronScheduler`, `RateLimiter`, `AuthRotation`).
* **Traces and recency** (`VoiceLoop`, `RunTracker`).
* **Skill bundles** (`SkillBundle`): what the writer prints and the loader reads back.
* `Common` holds optional values, slices and facts about sequences.

Where the code does less than one would think, the model follows the code, and the lemma gives the
exact condition under which the stronger statement holds:

* Pruning commits without resetting the counter of pending step writes, although the comment at
  `control/replay.py:145-147` lists it among the resets (`ReplayStore.PruneLeavesCounter`).
* The documentation at `control/replay.py:89-90` has reads on the writing connection; the code reads
  through a second one, after a flush, and the model has both.
* A diff hunk with an empty old range comes out one line early, after a changed line it brings an old
  line back, and at the top of a file it makes the applier copy all lines but the last first
  (`EmptyRanges.PlacedRightExactly`, `EmptyRanges.EmptyRangeInsertsEarly`); printed deletions and
  additions that begin `---` or `+++` are dropped (`UnifiedDiff.BodyLineActs`), and those that begin
  `--- ` or `+++ ` break the split into files (`DiffFiles.SplitRoundTrip`); `apply_unified_diff`
  answers "success" also when a file was reported as failed (`DiffFiles.SuccessIsWhole`).
* A timeout that fires while an operator resolves the request files it in the history twice
  (`ApprovalGate.FiledTwiceExactly`, `ApprovalGate.FiledTwiceHappens`).
* The desktop repeat guard does not catch unnamed tools or arguments that are not a dictionary
  (`DesktopAgent.GuardCatchesExactly`).
* Different values can share a de-duplication key: a list spells out an object
  (`BrowserExtraction.KeysCollideExactly`; what a merge then drops is `BrowserExtraction.MergeDropsExactly`).
* A trigger during a cron job's own run is overwritten (`CronScheduler.TriggerLostExactly`); a trigger
  of a registered, enabled job that is not running, and is left alone until the next pass, is
  honoured (`CronScheduler.TriggerHonoured`).
* `recent(0)` shows every run (`RunTracker.RecentIsNewest`), and with a negative window the rate
  limiter refuses nothing (`RateLimiter.RemainingIsExact`).
* A skill's text field of blanks only reads back as an empty text, not as absent (`SkillBundle.RoundTripIsExact`).

## Model

| member | source | states |
|---|---|---|
| PyStrings.StripFacts | skills/loader.py:113-123 | Stripping leaves no white space at either end, changes nothing already trimmed, is idempotent, and empties exactly the blank texts. |
| PyStrings.StripAround | skills/loader.py:113-123 | Stripping a trimmed text with any white space around it gives that text. |
| PyStrings.StripCuts | skills/loader.py:113-123 | Stripping takes away white space at the two ends and nothing else. |
| PyStrings.ParseIntDecimal | code_edit/diff.py:49-49 | Parsing the decimal form of any natural number gives the number. |
| TextLines.JoinSplitLines | code_edit/patcher.py:39-39 | Splitting a text into lines with their ends loses nothing, and the pieces are well split. |
| TextLines.SplitLinesJoin | code_edit/patcher.py:56-56 | Joined lines split into the same lines again if and only if each is one non-empty line, only the last lacks a break, and no seam fuses a "\r" with a "\n". |
| Workspace.TranslateIsIdentity | computer_use/filesystem.py:90-90 | Reading with universal newlines returns the stored text if and only if it has no carriage return. |
| Workspace.AnyLineEndReads | computer_use/filesystem.py:90-90 | A text written with any one of the three line ends is read as the same text. |
| Workspace.ScopedFileSystem.Read | computer_use/filesystem.py:80-92 | A read delivers exactly the readable text files, never with a carriage return, and as stored if and only if there was none; anything else is refused or raises, and nothing changes. |
| Workspace.ScopedFileSystem.Write | computer_use/filesystem.py:94-116 | A write either fails or stores the text at its own path; every other path is untouched. |
| UnifiedDiff.ApplyHunksToText | code_edit/diff.py:38-68 | The loop with its source cursor computes exactly the fold that the theorems below are about, malformed headers included. |
| UnifiedDiff.HeaderRoundTrip | code_edit/diff.py:45-53 | The header printed for a hunk sends the cursor to the hunk's first old line, or one line short of it exactly when the old range is empty. |
| UnifiedDiff.BodyLineActs | code_edit/diff.py:54-65 | A printed context, deletion or addition line acts as that operation if and only if it is not a deletion printing as `---` nor an addition printing as `+++`. |
| UnifiedDiff.ApplyIsTarget | code_edit/diff.py:38-68 | For any text and ordered non-overlapping hunks that match it, applying the printed diff yields the text with every old side replaced by its new side and all gaps kept. |
| UnifiedDiff.InverseUndoes | code_edit/diff.py:38-68 | The sign-swapped hunks match the patched text, and their target is the original. |
| UnifiedDiff.PatchThenRevert | code_edit/diff.py:38-68 | Applying a printed diff and then its reverse gives the original text back. |
| EmptyRanges.RunProduces | code_edit/diff.py:38-68 | For every list of matching clean hunks, empty old ranges included, what the applier puts out, cursor by cursor. |
| EmptyRanges.SettledExactly | code_edit/diff.py:44-67 | Below the top of the file the applier never puts out less than intended; it puts out the intended text if and only if every insertion equals the line it follows and follows no changed line. |
| EmptyRanges.SettledIsAllFit | code_edit/diff.py:44-67 | That condition said hunk by hunk, by the source line where each hunk starts. |
| EmptyRanges.TopExactly | code_edit/diff.py:49-53 | With insertions at the top of a source that is not empty the text is the intended one if and only if they and the source without its last line repeat one block, the next header is at the last line or after it, and the rest is settled. |
| EmptyRanges.PlacedRightExactly | code_edit/diff.py:38-68 | For every list of matching clean hunks the applier produces the intended lines if and only if the conditions of the rows above hold (an empty source is always right). |
| EmptyRanges.PatchedRightExactly | code_edit/diff.py:38-68 | The same of the patched text, for newline-terminated lines. |
| EmptyRanges.EmptyRangeInsertsEarly | code_edit/diff.py:49-53 | A diff of one hunk that only adds: its lines land one line early, or before the last line when they were to stand first. The result is the intended one if and only if: after a source line, every inserted line equals that line; at the top, the source is empty or its lines without the last one and the inserted lines repeat one common block. |
| DiffFiles.SplitDiffFiles | code_edit/diff.py:12-35 | The splitting loop computes the fold of the theorem below for every text. |
| DiffFiles.SplitNameLines | code_edit/diff.py:18-31 | A pair of name lines closes the file before it and opens one, under the name of the second line, whatever the first one said. |
| DiffFiles.SplitRoundTrip | code_edit/diff.py:12-35 | For plain names and newline-terminated operations, whatever they say, splitting the concatenation of printed per-file diffs returns the same files, in order, with the same hunk lines, if and only if no operation prints as a file marker. |
| DiffFiles.SplitKeepsLines | code_edit/diff.py:18-35 | Splitting keeps every line that is no file marker once, and no other. |
| DiffFiles.PatchFile | code_edit/diff.py:83-108 | One file of the loop: read, patched in memory and written; a refused read or a malformed header is reported, anything else that fails propagates, a read that raises included. |
| DiffFiles.ApplyUnifiedDiff | code_edit/diff.py:71-110 | The whole call: the final disk and the answer equal the file loop's, exceptions included; it is a no-op if and only if the diff names no file. |
| DiffFiles.SuccessIsWhole | code_edit/diff.py:83-110 | A "success" names no failed file, and lists every file in order, if and only if every block's file reads, its headers parse and its write is stored; otherwise the call answers "success" if and only if the first block to fail has a refused read or a malformed header, and then it names that file and lists exactly the files before it; else it raises. |
| DiffFiles.RefusalHasCause | code_edit/diff.py:45-51 | A readable file is reported only for a hunk header line of its block that does not parse. |
| DiffFiles.OtherPathsUntouched | code_edit/diff.py:83-108 | Files the diff does not name keep their content, whatever fails. |
| DiffFiles.PatchesAPrefix | code_edit/diff.py:83-108 | With distinct file names, the files before the failing one are patched whole and those after it, and a merely reported one itself, are untouched. |
| DiffFiles.WholeDiffPatches | code_edit/diff.py:83-110 | When every file exists and its hunks match, every file ends with its declarative target. |
| DiffFiles.DiffTextPatches | code_edit/diff.py:71-110 | The same from the text of the concatenated diff: split, apply and write give each file its target. |
| LinePatcher.SpliceEdits | code_edit/patcher.py:39-55 | The in-place splicing loop over the descending edits computes the splice of the theorems below, or fails at a start line past the end. |
| LinePatcher.SortFacts | code_edit/patcher.py:40-40 | The sort keeps the edits and puts start lines in descending order. |
| LinePatcher.SortIsStable | code_edit/patcher.py:40-40 | The sort is a permutation and keeps the order among edits that start at one line. |
| LinePatcher.SplicesAreSimultaneous | code_edit/patcher.py:37-55 | Splicing disjoint in-range edits in descending order equals replacing all ranges of the original at once, whatever order the edits came in. |
| LinePatcher.RebuildOrderFree | code_edit/patcher.py:37-55 | That simultaneous replacement depends only on which edits there are. |
| LinePatcher.OutOfRangeFails | code_edit/patcher.py:44-45 | An edit starting past the end makes the splice fail as a whole, overlaps or not. |
| LinePatcher.ReplacementSplit | code_edit/patcher.py:46-54 | The lines a replacement contributes are single lines if and only if a "\n" was not put after a form-feed-like ending. |
| LinePatcher.WrittenTextResplits | code_edit/patcher.py:39-57 | Re-splitting the written text gives back the spliced lines if and only if no replacement followed by text has such an ending. |
| PatcherFiles.GroupByPath | code_edit/patcher.py:28-34 | Grouping keeps each path's edits in order and the paths in order of first appearance, or raises for the first edit that ends before it starts. |
| PatcherFiles.EditsKeepTheirOrder | code_edit/patcher.py:28-34 | The edits grouped under a path are exactly the edits of the batch that name it, in the order given. |
| PatcherFiles.PathsByFirstAppearance | code_edit/patcher.py:28-34 | Of two grouped paths the earlier one is named before the later one is for the first time. |
| PatcherFiles.PatchFile | code_edit/patcher.py:37-65 | One file: written with its splice, or left unwritten with the error. |
| PatcherFiles.Apply | code_edit/patcher.py:27-66 | The whole call: the disk, the patched paths and the error equal the file loop's. |
| PatcherFiles.PatchPathOutcome | code_edit/patcher.py:37-57 | A file of disjoint edits is patched if and only if it reads, every edit is in range and its write is stored, and then it holds the simultaneous replacement; it is reported unreadable or out of range exactly when it is, and then not written. |
| PatcherFiles.PatchesAPrefix | code_edit/patcher.py:37-65 | Paths before the failing one were readable, in range and stored, and hold their patched text; later ones are untouched; the error says which of the three the failing one was not. |
| PatcherFiles.BatchPatchesAPrefix | code_edit/patcher.py:27-66 | The same for a whole batch in the order its paths first appear. |
| MultiFileEditor.RollBack | code_edit/multi_file.py:45-48 | Replaying the undo log backwards computes the restore of the theorems below, with failed restores ignored. |
| MultiFileEditor.Apply | code_edit/multi_file.py:25-54 | The whole call: the disk after all writes, or after the rollback, with the applied edits and the noted paths as answer. |
| MultiFileEditor.AnswerIsExact | code_edit/multi_file.py:29-54 | The answer is a success if and only if every write is stored, and then lists all edits; otherwise it lists exactly the edits before the first write that fails, and notes the paths up to it. |
| MultiFileEditor.SuccessIsLastWrite | code_edit/multi_file.py:29-43 | After a successful batch each path holds the last content written to it, and other paths what they held. |
| MultiFileEditor.FirstNoteIsOriginal | code_edit/multi_file.py:30-34 | The first note about a path is what the path held before the batch, however often it is written. |
| MultiFileEditor.RollbackRestores | code_edit/multi_file.py:44-48 | After a failed batch a path readable before reads the same again as soon as its own last restore write succeeds; its stored bytes are the old ones if and only if they held no carriage return. |
| MultiFileEditor.OutsideUntouched | code_edit/multi_file.py:25-54 | Paths outside the batch never change. |
| MultiFileEditor.PathUndone | code_edit/multi_file.py:44-48 | In a failed batch where no write broke off half way and every restore succeeds, a noted path ends as it began if and only if its first note has to be and can be put back exactly: readable before, no carriage return. |
| MultiFileEditor.UndoneExactly | code_edit/multi_file.py:25-54 | Such a batch leaves the whole disk as it was if and only if that holds of every noted path, a failing last edit on an unreadable path excepted; in particular created files stay. |
| ReplayStore.StepKeepsInv | control/replay.py:213-289 | Every public call keeps: committed database = log minus a suffix of step inserts, uncommitted <= counter <= 4. |
| ReplayStore.RunsAreExactly | control/replay.py:213-289 | Over any log of writes a run is in the table if and only if its latest start has not been pruned since, and its row is that start's with status, end, final URL, error and data of the latest finish after it: "completed" on success, "failed" otherwise. |
| ReplayStore.StepsAreExactly | control/replay.py:232-264 | A step is in the table if and only if its run has not been pruned since its latest insert, and it is then what that insert gave. |
| ReplayStore.FinishIsExact | control/replay.py:266-289 | Finishing a known run sets its status, end, final URL, error and data, and leaves its other fields, all other runs and all steps; an unknown one changes nothing. |
| ReplayStore.StepsAreBatched | control/replay.py:232-264 | With fewer than four steps pending a step stays uncommitted; as the fifth it commits everything. |
| ReplayStore.RunInv | control/replay.py:174-289 | The same over every sequence of calls, crashes and reopenings. |
| ReplayStore.CrashLosesOnlySteps | control/replay.py:213-289 | A crash after any calls and earlier crashes loses at most four writes, all step inserts, and no run row; the store opened next has exactly the rest. |
| ReplayStore.CommittingOps | control/replay.py:174-184 | After a start, a finish, a flush or a pruning that removed something, nothing is uncommitted. |
| ReplayStore.PruneLeavesCounter | control/replay.py:410-434 | After a pruning that removes runs the counter equals the number of uncommitted writes if and only if it was zero before. |
| ReplayStore.CounterGoesStale | control/replay.py:410-434 | It need not: a run with one uncommitted step, pruned away, leaves the counter at one with nothing uncommitted. |
| ReplayStore.FlushedReadIsCurrent | control/replay.py:174-179 | Whatever calls and crashes come between a flush and the read, the reader's snapshot contains every write made before the flush. |
| ReplayStore.PruneIsExact | control/replay.py:410-434 | Pruning removes exactly the runs started before the cutoff and their steps, and nothing else. |
| ReplayStore.ScreenshotRoundTrip | control/replay.py:189-208 | With any sound key or none, a stored screenshot reads back as it was given if and only if it does not start with the encryption marker. |
| ReplayStore.EncryptedAtRest | control/replay.py:189-208 | With a key everything stored carries the encryption marker, without one it is stored as given; a text with the marker is shown as the key decrypts it, and not at all without a key or when that fails. |
| ReplayReads.SelectRuns | control/replay.py:296-304 | The listing is the tenant's newest runs, newest first, at most max(1, limit), all of them if they fit. |
| ReplayReads.SelectSteps | control/replay.py:334-334 | The step rows of a run are each of its steps once, in strictly increasing index order. |
| ReplayReads.StepRowsUnique | control/replay.py:321-334 | Such a sequence of rows is determined by the database. |
| ReplayReads.FoldSteps | control/replay.py:352-373 | The loop over the rows shows every step, decrypted only when asked, and counts screenshots and distinct URLs of all of them. |
| ReplayReads.ReadRun | control/replay.py:326-383 | get_run on one database: nothing for another tenant's run, else the run with its steps, counts and first and last times. |
| ReplayReads.GetRunAnswerUnique | control/replay.py:306-383 | The specification of get_run admits exactly one answer. |
| ReplayReads.ShownAsGiven | control/replay.py:352-373 | A step reads back as it was added, its screenshot when asked for, unless that began with the marker; else without one. |
| ReplayReads.TenantsAreSeparate | control/replay.py:294-330 | get_run answers exactly for runs of the tenant, a listing holds only stored rows of such runs, and leaves one out only when it is full of runs that started no earlier. |
| ReplayReads.StepCountsAgree | control/replay.py:294-383 | list_runs and get_run report the same step count for a run. |
| ReplayReads.ScreenshotCountsAgree | control/replay.py:335-376 | The two forms of get_run agree on screenshot_steps if and only if no step of the run stores an empty screenshot. |
| ReplayReads.TaskReplayStore.Reopen | control/replay.py:115-163 | A new store on an existing file starts from what was committed, with nothing pending. |
| ReplayReads.TaskReplayStore.StartRun | control/replay.py:213-230 | Inserts the run row, commits and resets the counter; the store invariant is kept. |
| ReplayReads.TaskReplayStore.AddStep | control/replay.py:232-264 | Inserts the encrypted step and commits on the fifth pending one. |
| ReplayReads.TaskReplayStore.FinishRun | control/replay.py:266-289 | The row of a known run gets "completed" or "failed" by the given success and the given end, URL, error and data, all else stays; it is committed and the counter reset. |
| ReplayReads.TaskReplayStore.PruneOlderThan | control/replay.py:410-434 | Deletes, commits without touching the counter, and answers how many runs went. |
| ReplayReads.TaskReplayStore.FlushForReader | control/replay.py:174-179 | Afterwards the committed database is the plain map of all writes so far. |
| ReplayReads.TaskReplayStore.ListRuns | control/replay.py:294-304 | The answer is the listing of the plain map of all writes so far. |
| ReplayReads.TaskReplayStore.GetRun | control/replay.py:306-383 | The answer is get_run of the plain map of all writes so far, tenant filter included. |
| ReplayReads.TaskReplayStore.GetRunStepScreenshot | control/replay.py:385-405 | The decrypted screenshot of that step in the plain map, or nothing for a missing step or another tenant. |
| ApprovalGate.ApprovalGate.SubmitEnqueue | control/approvals.py:95-104 | The submitter's locked section adds one pending request. |
| ApprovalGate.ApprovalGate.MoveToHistoryLocked | control/approvals.py:156-160 | Takes the id off the pending table and appends it to the history, cut to its bound from the front. |
| ApprovalGate.ApprovalGate.ResolveLocked | control/approvals.py:132-154 | True exactly when the request was pending; then it is settled, released and filed. |
| ApprovalGate.ApprovalGate.SubmitTimeout | control/approvals.py:115-121 | Settles the request only if still pending, but files it in any case. |
| ApprovalGate.NextKeepsInv | control/approvals.py:82-160 | Each atomic step of a submitter, operator or timeout keeps the protocol invariant. |
| ApprovalGate.RunInv | control/approvals.py:82-160 | Every interleaving keeps it. |
| ApprovalGate.PendingAndHistory | control/approvals.py:103-160 | Pending holds exactly the unresolved requests, the history only resolved ones and at most its bound, and they are disjoint. |
| ApprovalGate.StatusSettles | control/approvals.py:117-144 | A request's record never changes again once it has left Pending. |
| ApprovalGate.RecordExactly | control/approvals.py:95-146 | In every reachable state there is a request for exactly the submits made, holding what its submit gave, with the timeout raised to a second if shorter, and what the first decision or timeout section after it says: status, time, reason, and release by an operator only. |
| ApprovalGate.HistoryExactly | control/approvals.py:132-160 | The history is always the latest filings, as many as fit: each settling decision and each timeout section files once, in order. |
| ApprovalGate.OneEffectiveDecision | control/approvals.py:126-154 | At most one approve or deny of an id returns true. |
| ApprovalGate.ApprovedIffApproveReturnedTrue | control/approvals.py:126-154 | A request is approved if and only if some approve of it returned true. |
| ApprovalGate.SubmitReturnsDecision | control/approvals.py:113-124 | What submit returns is settled, and approved if and only if an approve of that id returned true. |
| ApprovalGate.WriteOnlyAfterApproval | computer_use/filesystem.py:37-56 | A gated write touches the file only after an approve of its own request returned true. |
| ApprovalGate.FiledTwiceExactly | control/approvals.py:115-121 | A request is filed at most twice, and twice if and only if an operator resolved it and its timeout section also ran. |
| ApprovalGate.FiledTwiceHappens | control/approvals.py:115-146 | A run in which one request is filed twice. |
| ApprovalGate.TimeoutBringsBack | control/approvals.py:113-124 | From every reachable state a submitter's timeout can bring it back. |
| DesktopLane.DesktopLaneState.SetActiveRun | computer_use/desktop_lane.py:39-41 | Changes the active id only. |
| DesktopLane.DesktopLaneState.RegisterCancel | computer_use/desktop_lane.py:43-48 | Adds a cleared cancel event for the run and touches no other. |
| DesktopLane.DesktopLaneState.CancelRun | computer_use/desktop_lane.py:50-61 | True if and only if the run is registered; only its own event is set. |
| DesktopLane.DesktopLaneState.EnterLane | dashboard/routes/desktop.py:261-262 | A run takes the free lane and its id becomes the active one. |
| DesktopLane.DesktopLaneState.LeaveLane | dashboard/routes/desktop.py:261-269 | The lane is free again; the active id stays until clean-up. |
| DesktopLane.DesktopLaneState.ClearCancel | computer_use/desktop_lane.py:63-66 | Removes the run's event and nothing else. |
| DesktopLane.DesktopLaneState.CleanUp | dashboard/routes/desktop.py:334-337 | Clears the active id only if it is the run's own. |
| DesktopLane.NextKeepsInv | dashboard/routes/desktop.py:260-337 | Each step of each run's program keeps the lane invariant. |
| DesktopLane.ReachableInv | dashboard/routes/desktop.py:260-337 | So does every interleaving of runs with distinct ids, cancellations while waiting included. |
| DesktopLane.PhaseExactly | dashboard/routes/desktop.py:260-337 | A run is where the last event of its own program left it. |
| DesktopLane.CancelFlagExactly | computer_use/desktop_lane.py:43-66 | While a run has a cancel event it is set if and only if a cancel request for that run was made: it starts out clear and no other run's request sets it. |
| DesktopLane.MutualExclusion | dashboard/routes/desktop.py:260-270 | At most one run is inside the lane, and the active id is that run's. |
| DesktopLane.LateCleanUpIsHarmless | dashboard/routes/desktop.py:334-337 | Late clean-up of one run leaves the active id of a run inside alone. |
| DesktopLane.AllEndedIsIdle | dashboard/routes/desktop.py:334-337 | When all runs have ended there is no active id, no holder and no cancel event. |
| DesktopLane.CancellableExactly | computer_use/desktop_lane.py:50-61 | A cancel request reaches a run if and only if it waits, works or is on its way out. |
| DesktopLane.SomeRunCanStep | dashboard/routes/desktop.py:260-337 | As long as some run has not ended, some run can take a step. |
| DesktopLane.DispatchAdmitsTwo | dashboard/routes/desktop.py:139-175 | Two dispatches before either run is inside are both admitted. |
| DesktopLane.DispatchRefusedWhileInside | dashboard/routes/desktop.py:139-147 | A dispatch while a run is inside is refused. |
| DesktopLane.ActiveIsLastEntered | dashboard/routes/desktop.py:260-337 | In every reachable state the active id is that of the run that entered the lane last, until that run has ended. |
| DesktopLane.DispatchRefusedExactly | dashboard/routes/desktop.py:139-147 | In every reachable state a new run is refused if and only if the run that entered last is inside, on its way out or not yet cleaned up. |
| DesktopAgent.TakeTurn | desktop_agent/agent.py:126-223 | One turn, in the code's order of checks: cancel, observe, done, fail, repeat guard, policy, cancel again, dispatch; the handlers it calls are recorded where they are called, and none is called after the cancel event or against the policy. What its outcome means is in the rows below. |
| DesktopAgent.ExecuteInner | desktop_agent/agent.py:102-273 | Every exit, said of the model's answers and the history: success if and only if the policy is not empty, no recorded entry is an error, and within max_steps, without a cancel, the model says done; likewise fail, cancel, loop, invalid arguments, tool error and max_steps. Every entry tells its decision and outcome. Of all handlers called, as recorded at the calls, none started after the cancel event and all were allowed. |
| DesktopAgent.StopsExactly | desktop_agent/agent.py:125-273 | Each stop reason if and only if the environment and the history say so, by what the model answered, the cancel event, the last entries, the policy and max_steps. |
| DesktopAgent.EntryTells | desktop_agent/agent.py:194-246 | Entry i holds its number, the tool and arguments decided, the reasoning, and for an allowed tool the status and summary of its outcome, for another "denied"; and the decision did not repeat the last entries. |
| DesktopAgent.EntriesAreNumbered | desktop_agent/agent.py:194-246 | Entry i carries number i + 1, and each entry is of an allowed tool or denied. |
| DesktopAgent.NoStartAfterCancel | desktop_agent/agent.py:122-223 | The list of handler calls that a history stands for, which the loop's recorded calls equal, has none after the cancel event and none that is not allowed. |
| DesktopAgent.CancelEndsTheRun | desktop_agent/agent.py:125-135 | No turn that begins after the cancel event is set is recorded. |
| DesktopAgent.NoLongRepeat | desktop_agent/agent.py:177-192 | With a named tool and dictionary arguments no more than two identical calls stand in a row, three for loop-tolerant tools, denied ones included. |
| DesktopAgent.GuardCatchesExactly | desktop_agent/agent.py:177-210 | A decision given for ever is stopped within the threshold if and only if it is neither an allowed tool with arguments that are no dictionary nor a missing tool. |
| DesktopAgent.EscapingRun | desktop_agent/agent.py:177-210 | Any other decision, a missing tool or an allowed one whose arguments are no dictionary, fills any number of turns with one and the same recorded call. |
| DesktopAgent.ObservesExactly | desktop_agent/agent.py:275-295 | A turn takes a new screenshot unless, and only unless, the last step was a successful call of a tool that does not change the screen; a shell command that opens an application is not one. |
| DesktopAgent.OpensAppExactly | desktop_agent/decision.py:49-60 | A command opens an application if and only if it is white space, `open`, white space, `-a`, white space and anything, in any case. |
| BrowserExtraction.KeyInjectiveOffLists | browser/agent.py:33-50 | The de-duplication key tells apart all values that are not lists. |
| BrowserExtraction.KeysCollideExactly | browser/agent.py:33-50 | Two values share a key if and only if they are equal, or lists whose items pairwise share keys, or one is an object and the other the list of its name-value pairs, the values neither lists nor objects. |
| BrowserExtraction.ListsCollideWithObjects | browser/agent.py:33-50 | Two such pairs: the empty list with the empty object, and a list of one pair with an object of one entry. |
| BrowserExtraction.MergeDropsExactly | browser/agent.py:369-381 | A merge raises if and only if a new item is unhashable; otherwise it appends exactly the new items that are not None and share no key, in the sense above, with an item there or before them. |
| BrowserExtraction.MergeItems | browser/agent.py:369-381 | The inner loop computes the merge, or raises at an unhashable item. |
| BrowserExtraction.MergeFacts | browser/agent.py:369-381 | A merge only appends, never leaves None or two items of one key, and represents every new item. |
| BrowserExtraction.RecordExtraction | browser/agent.py:352-390 | The whole update of the store, structured or by field names; an extract that raises keeps the fields before the raising one. |
| BrowserExtraction.ExtractEndsAs | browser/agent.py:366-384 | A structured extract leaves each list-valued field a list that extends the one there before (or starts afresh), each other field with the given value, and all other fields as they were. |
| BrowserExtraction.NamesEndMarked | browser/agent.py:384-390 | An extract of field names gives each a marker with the address of the page and leaves the other fields. |
| BrowserExtraction.SplitCommasExactly | browser/agent.py:386-386 | The names are the pieces between commas: they hold no comma, and joined with commas they are the text. |
| BrowserExtraction.RecordFacts | browser/agent.py:352-390 | An extract keeps all lists free of duplicates and None; a list that is still a list afterwards has only grown by appending (a scalar extract replaces it). |
| BrowserExtraction.ProgressIsExact | browser/agent.py:392-402 | The signature (length and last item per list) is unchanged by an extract if and only if the whole store is. |
| BrowserExtraction.Execute | browser/agent.py:209-340 | A run stops for lack of progress exactly at the third EXTRACT in a row that left the store unchanged, as filled exactly at the first EXTRACT that fills all fields, and as done, failed or raised exactly at the first step that says or does so; done, filled and no progress are success. The returned store is the fold of all recorded extracts, on errors too. |
| CronScheduler.CronScheduler.AddIntervalJob | cron/scheduler.py:67-86 | Registers a new job object due after its interval, in the place of the name it replaces, or raises below one second. |
| CronScheduler.CronScheduler.AddCronJob | cron/scheduler.py:88-120 | The same for a job driven by a cron expression. |
| CronScheduler.CronScheduler.RemoveJob | cron/scheduler.py:122-126 | Unregisters the name and wakes the loop if it was there. |
| CronScheduler.CronScheduler.SetJobEnabled | cron/scheduler.py:128-139 | Switches the named job on or off, reschedules it when switched on, wakes the loop. |
| CronScheduler.CronScheduler.SetJobInterval | cron/scheduler.py:141-151 | Changes the interval and the next run of an interval job; refuses cron jobs and raises below one second. |
| CronScheduler.CronScheduler.TriggerJob | cron/scheduler.py:153-160 | Makes the job due now and wakes the loop. |
| CronScheduler.CronScheduler.Start | cron/scheduler.py:184-189 | Starts an idle loop with both flags cleared; otherwise nothing. |
| CronScheduler.CronScheduler.Stop | cron/scheduler.py:191-193 | Sets the stop and wake flags. |
| CronScheduler.AddedExactly | cron/scheduler.py:67-120 | Adding makes a new object with the given name, flag and first time that has never run, in the place of its name or at the end; below one second it raises and nothing changes. |
| CronScheduler.RemovedExactly | cron/scheduler.py:122-126 | Removing takes the name off the table and changes no object. |
| CronScheduler.EnabledExactly | cron/scheduler.py:128-139 | The named job has the flag asked for; off changes nothing else, on makes it due its interval later or at the cron time; no other job changes. |
| CronScheduler.IntervalExactly | cron/scheduler.py:141-151 | An interval job gets the interval and is due that much later; a cron job is refused; below one second it raises. |
| CronScheduler.TriggeredExactly | cron/scheduler.py:153-160 | The named job alone changes, and only in being due now. |
| CronScheduler.UnknownName | cron/scheduler.py:122-160 | An operation on an unknown name says so and changes nothing. |
| CronScheduler.StartStopExactly | cron/scheduler.py:184-193 | Start begins only an idle loop, with both flags cleared; stop sets both. |
| CronScheduler.CompletionExactly | cron/scheduler.py:206-218 | After a run one more is counted, its end and error are noted, the next time is set from its end or by cron, and no other job changes. |
| CronScheduler.CronScheduler.RunTurn | cron/scheduler.py:200-235 | What the loop does between two awaits: begin a pass, or finish a job and start the next one or go to sleep. |
| CronScheduler.CronScheduler.SleepUntilNext | cron/scheduler.py:237-241 | The loop over the jobs computes the clamped least time to go. |
| CronScheduler.SleepIsRight | cron/scheduler.py:237-241 | A sleep is within 0.05 and 1 second, overshoots no enabled job by more than 0.05, and is under a second only because some enabled job wants it. |
| CronScheduler.DueExactly | cron/scheduler.py:203-205 | A scan finds each registered, enabled job whose time has come, once, and no other. |
| CronScheduler.StepKeepsInv | cron/scheduler.py:67-241 | Every public operation and every turn of the loop keeps the invariant below. |
| CronScheduler.RunInv | cron/scheduler.py:67-241 | In every run: each pass but one under way has started exactly the jobs its scan found due, in order; and an unwoken sleep is the one the present jobs ask for. |
| CronScheduler.PassStartsDue | cron/scheduler.py:203-218 | A job starts in a pass only if it was enabled and due at the scan, at most once, and exactly once when the pass is over. |
| CronScheduler.DisabledIsNotStarted | cron/scheduler.py:128-218 | In every run a job that was switched off, and that nothing has switched on since, is started by no pass begun after. |
| CronScheduler.NoLostWakeUp | cron/scheduler.py:220-222 | While the loop sleeps, either it has been woken or its sleep overshoots no enabled job's present time by more than 0.05: clearing the wake flag loses no change. |
| CronScheduler.IntervalRespected | cron/scheduler.py:206-218 | From the end of an interval job's run to its next start, if nothing reschedules it, at least its interval passes, which is at least a second. |
| CronScheduler.IntervalIsTight | cron/scheduler.py:200-218 | The bound is reached: a run in which a job completes at time 2 and, with an interval of one second, starts again at time 3. |
| CronScheduler.TriggerLostExactly | cron/scheduler.py:153-218 | A trigger while a job runs has left no trace on the jobs once that job completes, if and only if it was for the running job itself or for one due at exactly that time already. |
| CronScheduler.TriggerHonoured | cron/scheduler.py:153-222 | In every run, a trigger of a registered, enabled job that is not itself running is honoured: the pass under way starts it if it is still ahead there, and otherwise the next pass does, if nothing but a trigger is done to the job before that pass begins. |
| CronScheduler.StopEndsTheLoop | cron/scheduler.py:191-201 | After stop no pass begins, and the loop takes no more turns than its current pass needs. |
| RateLimiter.RateLimiter.Consume | policies/rate_limit.py:32-42 | Prunes the key's deque, then rejects or appends, as the functions of the lemmas below do. |
| RateLimiter.RateLimiter.Remaining | policies/rate_limit.py:44-49 | Prunes and answers the free places, never below zero. |
| RateLimiter.RejectedExactly | policies/rate_limit.py:32-49 | A consume is accepted if and only if the full log holds fewer than max_events accepted events in the closed window ending now, and remaining is what is left of them. |
| RateLimiter.RunInv | policies/rate_limit.py:32-49 | Over every run with a monotone clock the deque is the tail of the full log, what it dropped is outside the window, and events max_events apart are more than a window apart. |
| RateLimiter.SlidingWindow | policies/rate_limit.py:32-42 | Every closed interval as long as the window holds at most max_events accepted events of a key. |
| RateLimiter.RemainingIsExact | policies/rate_limit.py:44-49 | For every number of further calls at that instant, remaining says how many are accepted, if and only if the window is not negative or nothing is ever accepted. |
| AuthRotation.AuthProfilePool.EligibleNames | model_routing/auth_rotation.py:51-57 | The profiles without an error inside the cooldown, in order. |
| AuthRotation.AuthProfilePool.ChooseFrom | model_routing/auth_rotation.py:60-64 | The eligible profiles, or all of them with every error forgiven. |
| AuthRotation.AuthProfilePool.Acquire | model_routing/auth_rotation.py:59-83 | Chooses by policy, rotates the deque and counts the use, as the function of the lemmas below does. |
| AuthRotation.AuthProfilePool.ReportError | model_routing/auth_rotation.py:85-87 | Marks the named profile's error time, if there is such a profile; the rows below say what that does. |
| AuthRotation.AcquiredFacts | model_routing/auth_rotation.py:59-83 | The deque stays a permutation of the profiles, and what is returned was eligible unless no profile was. |
| AuthRotation.AcquireExactly | model_routing/auth_rotation.py:59-83 | An acquire takes a profile without an error inside its cooldown if there is one, and forgives everyone if there is none; it counts one use, at this time, of the profile taken and of no other. |
| AuthRotation.RotationTakesFirstFree | model_routing/auth_rotation.py:71-79 | Round robin takes the first such profile of the deque and puts it last. |
| AuthRotation.LeastUsedTakesFewest | model_routing/auth_rotation.py:68-69 | Least-used takes such a profile with the fewest uses, and of those the first. |
| AuthRotation.RandomReachesAllFree | model_routing/auth_rotation.py:66-67 | Random can take any such profile. |
| AuthRotation.ErrorIsNoted | model_routing/auth_rotation.py:85-87 | An error of a known profile sets its error time and nothing else of the pool; of an unknown one nothing. |
| AuthRotation.ErrorBars | model_routing/auth_rotation.py:51-57 | So it is free again if and only if the cooldown is over, and every other profile is as free as before. |
| AuthRotation.ReportedIsBarred | model_routing/auth_rotation.py:51-87 | In every run after report_error, whatever further errors come, the profile is not returned up to the end of its cooldown while another one is free at each acquire. |
| AuthRotation.BoundedWait | model_routing/auth_rotation.py:71-79 | A profile that stays eligible is returned by one of the next i + 1 acquires, i its place in the rotation, whatever errors and cooldowns hit the others. |
| AuthRotation.WithinOneRound | model_routing/auth_rotation.py:71-79 | Hence within as many acquires as there are profiles. |
| AuthRotation.ErrorFreeFollowsRotation | model_routing/auth_rotation.py:71-79 | From a pool without an error inside its cooldown, a run of acquires returns the rotation from its head. |
| AuthRotation.AcquireKeepsEligible | model_routing/auth_rotation.py:59-83 | An acquire adds no error: when everyone is eligible, everyone stays eligible. |
| AuthRotation.ErrorFreeAcquiresDiffer | model_routing/auth_rotation.py:71-79 | From such a pool any n consecutive acquires of n profiles are all different. |
| AuthRotation.LeastUsedStaysBalanced | model_routing/auth_rotation.py:68-69 | Under least-used, any run of acquires from such a pool, if balanced, keeps the use counts within one of each other. |
| AuthRotation.NewPoolIsBalanced | model_routing/auth_rotation.py:45-49 | A new pool is balanced, everyone in it is eligible at any time, and its deque is a permutation of the profiles. |
| VoiceLoop.BufferedAudioPlayer.Play | voice/realtime_loop.py:88-91 | Hands the chunk to the sink; playback goes on only if the sink did not raise. |
| VoiceLoop.BufferedAudioPlayer.Stop | voice/realtime_loop.py:93-96 | Playback is off. |
| VoiceLoop.RealtimeVoiceLoop.Handle | voice/realtime_loop.py:179-222 | One event changes the loop and its player as the fold of the theorems below does, raising included; those say it of the events alone. |
| VoiceLoop.RealtimeVoiceLoop.Run | voice/realtime_loop.py:162-177 | The run handles events up to the first that ends it, and on every exit playback is off. |
| VoiceLoop.SpeakingIsAudible | voice/realtime_loop.py:184-222 | While a run goes on, the assistant counts as speaking if and only if audio came after the last response end or speech start, and then the player is on. |
| VoiceLoop.PlayingExactly | voice/realtime_loop.py:184-222 | While a run goes on the player is on if and only if some audio came after the latest barge-in; directly after a barge-in it is off. |
| VoiceLoop.BargeInsCounted | voice/realtime_loop.py:215-222 | barge_ins and the calls of cancel_response both equal the number of speech starts that found audio since the last response end or speech start. |
| VoiceLoop.ResponsesCounted | voice/realtime_loop.py:188-190 | responses counts the response ends handled, and the sink got every chunk whose play did not raise, in order. |
| VoiceLoop.StopwatchRuns | voice/realtime_loop.py:186-205 | The stopwatch holds the time of the latest end of speech if and only if no audio has come since. |
| VoiceLoop.LatencyMeasured | voice/realtime_loop.py:201-206 | The last latency is from the latest end of speech to the first audio after it, or absent if there was none. |
| VoiceLoop.RunEndsFirst | voice/realtime_loop.py:171-199 | A run ends at its first session error or raising event, said of the events alone, and nowhere else. |
| VoiceLoop.VoiceTrace | voice/realtime_loop.py:162-234 | All of these together for one run of a new loop. |
| RunTracker.RunTaskTracker.MoveToEnd | control/run_tracker.py:64-64 | The id goes last and the others keep their order. |
| RunTracker.RunTaskTracker.StartRun | control/run_tracker.py:45-67 | Puts a new record last and drops the oldest beyond the bound; a negative bound empties the tracker and raises. |
| RunTracker.RunTaskTracker.Update | control/run_tracker.py:69-121 | step and finish update a tracked run and move it last; an unknown id changes nothing. |
| RunTracker.RunTaskTracker.Latest | control/run_tracker.py:128-133 | The last record, which is the head of recent(1), or none. |
| RunTracker.RunTaskTracker.RecentRuns | control/run_tracker.py:135-138 | The reversed slice that the lemma below characterises. |
| RunTracker.TrimKeeps | control/run_tracker.py:140-142 | Trimming keeps the newest, as many as fit. |
| RunTracker.TrackerIsLru | control/run_tracker.py:45-142 | In every reachable state the tracker holds exactly the max_runs ids with the latest effective touches, in that order, each record being what all calls for its id since its latest start say. |
| RunTracker.RecordSays | control/run_tracker.py:45-121 | A tracked record has the fields of its latest start, is completed or failed as the latest finish after it says, with that one's end, final URL and error, or running without one, has the last action of the latest step after it, and what both report from the later of the two. |
| RunTracker.RecentIsNewest | control/run_tracker.py:135-138 | recent(limit) is the newest `limit` runs, newest first, if and only if limit is positive or there is no run; otherwise it is every run. |
| SkillBundle.FrontmatterRoundTrip | skills/loader.py:102-110 | Extraction returns exactly the front matter text that was written if and only if that text has no line break followed by three dashes. |
| SkillBundle.InstructionsSurvive | skills/writer.py:213-215 | What follows the front matter of a written skill is its instructions, but for white space around them. |
| SkillBundle.CoerceStrings | skills/loader.py:113-123 | The coercion loop computes the stripped, non-blank strings of a value. |
| SkillBundle.CoerceMembers | skills/loader.py:113-123 | A string is in the coerced list if and only if it is not empty and some item shows as it but for white space around. |
| SkillBundle.CoerceWritten | skills/loader.py:113-123 | A written list of strings reads back stripped and without its blank entries. |
| SkillBundle.WriteFrontmatter | skills/writer.py:188-212 | The step-by-step construction yields the front matter of the theorems below. |
| SkillBundle.WriteMeta | skills/writer.py:104-122 | The same for the metadata block. |
| SkillBundle.WrittenFields | skills/writer.py:188-212 | What each key of the written front matter holds: present exactly when its field is set, tags included. |
| SkillBundle.ExtractedIsNormalForm | skills/loader.py:126-244 | The OpenClaw fields read from a serialised draft are the draft's own, texts stripped and empty ones absent, lists cleaned; there are none if and only if the draft has none or all are at their defaults. |
| SkillBundle.EitherSpelling | skills/loader.py:137-163 | A field written with underscores is read like one with dashes, which takes precedence. |
| SkillBundle.EitherAnyBins | skills/loader.py:145-153 | The alternative programs are read under either key, the second only when the first says nothing. |
| SkillBundle.RoundTripIsExact | skills/loader.py:113-244 | That changes nothing if and only if every text is absent or trimmed and non-empty, and every list holds only such texts. |
| SkillBundle.WrittenWarnings | skills/loader.py:165-191 | A validated draft gets at most one warning from its front matter, exactly when it dispatches to a tool it does not name. |
| SkillBundle.FrontWarnsExactly | skills/loader.py:126-191 | Any front matter draws no warning if and only if inline metadata parses, every system is known, and dispatch is to a named tool. |
| SkillBundle.OsWarned | skills/loader.py:158-163 | Warnings are given for exactly the systems listed that are not known. |
| SkillBundle.Compatible | skills/loader.py:247-291 | The two loops over the manifest compute the declared surfaces, the warnings and the passing tests. |
| SkillBundle.ManifestWarnsExactly | skills/loader.py:247-291 | Any manifest draws no warning if and only if it declares a supported surface and a test that passed. |
| SkillBundle.ManifestReadBack | skills/writer.py:218-238 | A written manifest declares exactly the draft's surfaces, with one passing test for each, and no warning. |
| SkillBundle.ValidSurfaces | skills/writer.py:148-170 | Raises if and only if no surface or an unsupported one is named; otherwise keeps each named surface once, in order. |
| SkillBundle.LoweredMembers | skills/writer.py:151-158 | A surface or system is named if and only if some given text is it, but for capitals and white space around. |
| SkillBundle.LowerFacts | skills/writer.py:152-152 | Lower-casing turns capitals into small letters and changes nothing else. |
| SkillBundle.ValidOs | skills/writer.py:85-102 | Raises if and only if an unknown system is named; otherwise keeps each once, in order. |
| SkillBundle.UniqueFacts | skills/writer.py:163-170 | De-duplication keeps exactly the named values, once each, and changes a list without duplicates not at all. |
| SkillBundle.WriteThenDiscover | skills/writer.py:241-277 | Writing a validated draft and discovering it again gives its fields in normal form, its surfaces, its tests and its status. |
| SkillBundle.VerifiedExactly | skills/loader.py:392-411 | A written skill is verified if and only if name and description are not blank and tool dispatch names a tool, and invalid if and only if one of the two is blank. |
| SkillBundle.StatusExactly | skills/loader.py:357-411 | Whatever a directory's files hold: it is invalid if and only if SKILL.md is missing, the manifest does not load or is no table, or name or description is blank; verified if and only if it is not invalid, its front matter is in order and its manifest vouches for it; name falls back to the directory, version to the front matter's and then "0.0.0". |

## Left out

- HTTP routes, the event bus, the UI, channel adapters, audio devices, subprocesses, SSH and containers: input and output.
- The vision model, Playwright, tool handlers and callbacks: arbitrary inputs; a handler is taken to return a dictionary or raise.
- SQLite, Fernet, YAML, JSON and asyncio inside: tables are maps with a committed and a working version, encryption is a function with an inverse, YAML a load and a dump of which only "loads what it dumped" is assumed, every await a scheduling point.
- The order in which asyncio hands a lock to its waiters: any waiter may be next.
- `close` of the replay store, schema upgrades, and the parsing of stored JSON: they would only add easy members.
- ReplayReads.SelectRuns: the order among runs of one tenant with equal start times is left open, as the query leaves it.
- Path resolution, allow-lists and size limits of the file system: a read or write may fail at any path for any reason.
- ApprovalGate: the order of the pending table, broadcasts to listeners, cancellation of a waiting submit from outside, and capabilities that need no approval.
- LinePatcher.SplicesAreSimultaneous: overlapping edits, which the code does not reject, have no simultaneous reading; the splicing itself is modelled for them too.
- UnifiedDiff: "\ No newline at end of file" markers inside the round trips; the applier's handling of them is modelled. The preview text of a patch is not.
- PyStrings.ParseIntDecimal: digits outside ASCII, which `int` also accepts.
- DesktopLane: two live runs with the same id.
- DesktopAgent: reading the tool's name and the reasoning out of the model's answer (they are arbitrary texts here, as stripped), the texts of the final reasoning, the last screenshot, the pauses after input, and the wording of results.
- BrowserExtraction.KeyInjectiveOffLists: dictionaries whose values cannot be ordered or hashed are values that raise; floating-point equality is equality of numbers.
- CronScheduler: cancellation of the loop's task from outside, and a start between the loop's last turn and the return of stop, which lets go of the new task. That a job disabled or removed in mid-pass is not run is not claimed: the code runs it.
- CronScheduler.IntervalRespected: the clock is taken to be monotone; wall-clock steps backwards are not modelled. The same holds for RateLimiter.RunInv.
- AuthRotation.NewPoolIsBalanced: several profiles of one name.
- VoiceLoop.VoiceTrace: a player other than the buffered one, `stream_play`, and cancellation at an await inside a handler; a cancellation between events is a stream that ends.
- SkillBundle: the slug and tag validators, the length limits, the order of the sorted surfaces (a set here), lower-casing outside ASCII, and the scan for skill directories.
- The registries of agents, sessions, skills, workspaces and usage: they would only add easy members.
