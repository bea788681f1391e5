# Darkhan: verified models

Darkhan is a Node server that keeps a tamper-evident activity log, watches its own files, routes channel
messages to language models and exchanges messages with other nodes through a hub. This project models the
parts of it whose correctness does not depend on the surrounding I/O, and proves what they keep over whole
runs. `dafny verify dfyconfig.toml` checks everything.

Code that updates fields or module-level variables step by step is a `class` whose methods are proved to make
exactly the transitions of a specification on values (`View() == Step(old(View()))` in one form or another); the
theorems over runs are lemmas about that specification. What happens between two awaits is one step.

| file | models |
|---|---|
| `Prelude.dfy` | options, string prefixes |
| `ActivityLog.dfy`, `FieldBinding.dfy` | the hash-chained activity log and its verifier; what an equal head says about fields and counts |
| `Scheduling.dfy`, `SchedulingCases.dfy`, `SchedulingRuns.dfy`, `AutoResponder.dfy` | the auto-responder's scheduler: debounce, one turn at a time, bounded queue, regrouping drain |
| `Integrity.dfy`, `IntegrityService.dfy`, `UpdateProtocol.dfy` | baseline, external baseline, anchor, grace period, lockdown; update mode and its mutex |
| `Federation.dfy`, `FederationService.dfy`, `Cascade.dfy` | polling a hub with lost replies and acknowledgements; the relay guards and what one post sets off |
| `ActionEvidence.dfy`, `Traces.dfy` | claim detection and evaluation; the life of evidence traces in memory and table |
| `LoginLimiter.dfy`, `LoginRoute.dfy` | failed-login limits per address and per user, with restarts |
| `RemotePoller.dfy` | the remote runner's watermark polling over the message list, one cycle at a time and overlapping |
| `DiffScanner.dfy` | the secret scanner's walk over a staged diff, against a printer of unified diffs |
| `BehavioralBaseline.dfy` | rolling activity averages and the anomaly threshold |
| `DedupWindow.dfy` | the MCP server's 30-second duplicate filter |

SHA-256 (section 6.2 of FIPS 180-4) is an arbitrary function into strings of 64 hex digits; the HMAC is an
arbitrary keyed function. No collision-freedom is assumed anywhere: where two logs agree although they should
not, the proof hands out two different strings, both hashed by those logs, with the same digest.

## Where the code does less than it says

The model follows the code. Each of these has a lemma that exhibits the behaviour, and the promise is proved
under the exact condition, or under the guard, that excludes it.

- **Reopening the activity log** reads the last row only (`server/services/activity-log.js:82-95`). If that row is
  unhashed although an earlier one is hashed, the next append starts a second chain and verification fails
  (`ResumingNeedsHashedTail`, `UnhashedTailIsNotResumable`). No writer in the repository leaves such a row; it takes
  an insert from outside, or a version from before the chain run against the same file.
- **An empty entry type** is hashed as written but verified as `event` (`AppendNeedsEntryType`).
- **The joined string is what is bound**, not the fields: `a|b` and `c` hash like `a` and `b|c` (`FieldsAreNotBound`).
  With bar-free origin and type, the string binds all six fields exactly when no text field has a bar
  (`DataBindsFieldsExactly`), and then equal heads bind them over whole logs (`EqualHeadsBindFields`).
- **The counts that `verify` reports** are not bound by the head: a row in the older format does not hash its type,
  and a current row can be recast as an older one under the same hash, so any hashed row can be given another type
  (`RelabelledRowsVerify`). Without a condition on the format the counts are bound exactly when no row is hashed
  (`HeadBindsCountsExactly`); between logs in the current format, with bar-free types, they are (`EqualHeadsBindCounts`).
- **Deletions and edits that go unnoticed**: every beginning of a verified log verifies, so the newest rows can be cut
  off; only a head kept elsewhere shows it (`CutLogsVerify`). Deleting a hashed row from before another one is found,
  or exhibits a collision (`DeletedRowsBreakOrCollide`). Editing a row under its hash is found at that row exactly if
  the row is hashed and its text no longer has that hash (`EditedRowBreaksOrVerifies`).
- **A reply to a permission prompt** returns without clearing `isProcessing` (`server/services/auto-responder.js:582-594`).
  From then on every message is queued or dropped and no turn ever starts (`StuckForever`); nothing else has that
  effect (`StuckExactlyAfterPermission`).
- **A busy session** returns without draining (`617-624`), so a later message of the same channel can overtake
  queued ones (`BusyReturnLetsOvertake`): the order breaks exactly when a debounce fires on an idle scheduler while
  its own channel waits (`StepOrdered`, `AlwaysOrderedExactly`).
- **A missing file is forgotten at restart**: the startup comparison skips files that are not on disk, so a file
  deleted before one restart and put back changed before the next is accepted (`RestartForgetsMissingFiles`,
  `DeletedFileReturnsChanged`). Over runs, the hash stays vouched for exactly when every restart finds the file, or
  some other file changed (`AlwaysVouchedExactly`).
- **Workers are loaded under lockdown** after an anchor mismatch or a suspicious deletion: the check before loading
  (`server/server.js:1246-1258`) then compares the disk with itself. Only changed files keep them from being loaded
  (`WorkersLoadUnlessFilesChanged`).
- **A baseline file that does not parse** throws before its anchor is checked (`server/services/integrity.js:162-164`,
  `278-279`); startup then replaces and re-anchors it without a lockdown (`RestartReplacesExactlyGarbledFiles`).
- **A missing baseline file is rewritten by the restart that misses it**, also by the one that locks down for it: the
  check before loading restores it from what is on disk, anchored, and the next restart trusts it
  (`MissingBaselineIsRewritten`).
- **Without `SESSION_SECRET`** an anchor from earlier times stays in place, and what is saved does not match it
  (`SavedBaselinePins`).
- **The five-minute timer** of update mode frees the mutex under a running update, and a second one can start
  (`TimerLetsUpdatesOverlap`). A call of `performUpdate` that bypasses the endpoints' guard frees the mutex of the
  update that holds it (`UnguardedCallFreesMutex`). Mutex, mode, timer and log stay in step with at most one running
  update exactly when neither happens (`ExclusiveExactlyUndisturbed`).
- **A failing recovery of an update** leaves only the critical files' hashes in memory, and the baseline file as it was
  (`PerformUpdate`, `HalfReset`).
- **`_lastPollTimestamp` never leaves null**: a date string compared with null is NaN against 0 and false (section
  7.2.13 of ECMA-262, IsLessThan), so every poll asks for everything unacknowledged (`WatermarkStaysNull`).
  Delivery rests on acknowledgements; a lost one makes worker listeners see a message again
  (`DispatchedOncePerArrival`). Messages of channels that are not federated are acknowledged and not stored.
- **"Three consecutive failures"** of the heartbeat need not be consecutive on one connection: a reconnect by a poll
  keeps the count (`PollReconnectKeepsFailures`). It counts the present connection's failures exactly when no poll or
  relay reconnects with failures on the count (`CountsPresentFailuresExactly`).
- **One more complete entry can lower the trust level**, exactly when it completes a contradiction
  (`OnlyContradictionLowers`, `MoreEvidenceHurtsExactly`).
- **The first login after a restart** is checked before `login_attempts` has been read, so a blocked address gets
  one more check per restart (`RestartLetsOneThrough`). No window ever counts more than five failed checks exactly
  when none slips in this way (`FivePerWindowExactly`), and each window is overrun by the checks that slip into it at
  most (`WindowHoldsFiveAndSlips`).
- **Records of different addresses and names can share a key**: a second colon, as in an address of IP version 6, makes
  it ambiguous (`KeyIsUniqueExactly`). The record of the address alone is not affected.
- **An added line that starts with `++`** is taken for a file header, and a "No newline" marker before an added line
  shifts its number (`WalkFindsEveryAddedLine` says exactly when the walk is right).
- **More than twenty unseen messages** in a channel lose the oldest of them for good (`PollDispatchesNewestLosesRest`,
  `LostForever`), and so does an arrival with a stamp at or below the watermark, which one-second stamps and ingested
  messages bring about. Nothing is lost exactly when neither happens (`EverythingDispatchedExactly`).
- **Poll cycles can overlap**, since the timer waits neither for the listeners nor for replies. Messages are then
  dispatched twice exactly when a reply brings a row that is in hand or already dispatched (`NothingTwiceExactly`), the
  second only when the watermark moved after the request was sent (`DispatchedRowsComeAgainLate`); both occur
  (`SlowReplyRepeats`).

## Model

| member | source | states |
|---|---|---|
| `ActivityLogs.PreimageDecodes` | server/services/activity-log.js:100-103 | the hashed string `previousHash + data` has no separator, yet decodes in one way only, because no hex digest starts like `genesis` |
| `ActivityLogs.HeadIsDigest` | server/services/activity-log.js:288-330 | the head of a log that verifies is null or a 64-digit hex string |
| `ActivityLogs.ExtractionWorks` | server/services/activity-log.js:273-334 | two logs that verify with the same head: walking them back either shows the same covered strings, same count, same order, or yields two different strings, each hashed by one of the logs, with one digest |
| `ActivityLogs.EqualHeadsBindContents` | server/services/activity-log.js:273-334 | the same as a statement: equal heads bind the contents, or the logs exhibit a collision between strings they hash |
| `ActivityLogs.FieldsAreNotBound` | server/services/activity-log.js:117 | rows with different actors can cover the same string under the same hash |
| `FieldBinding.SplitsOneWayExactly` | server/services/activity-log.js:117 | the joined string of two or more fields splits in one way only exactly when no field has a bar |
| `FieldBinding.FieldsBound` | server/services/activity-log.js:292-297 | equal data strings mean equal fields, type included, up to null, empty and default, as soon as one row has no bar in them |
| `FieldBinding.DataBindsFieldsExactly` | server/services/activity-log.js:292-297 | with bar-free origin and type, the data string binds all six fields exactly when actor, action, target and details have no bar |
| `FieldBinding.EqualHeadsBindFields` | server/services/activity-log.js:273-334 | two verified logs in the current format with one head, one of them bar-free, agree in every field of every hashed row, or exhibit a collision |
| `FieldBinding.AppendKeepsFormat` | server/services/activity-log.js:115-128 | an append to the true head writes a row in the current format, under every instance name |
| `FieldBinding.WrittenLogsAreCurrent` | server/services/activity-log.js:82-142 | what the service writes over any run of appends and restarts on a table in the current format, the empty one above all, is in the current format |
| `FieldBinding.EqualHeadsBindCounts` | server/services/activity-log.js:273-334 | two verified logs in the current format with one head and bar-free types report the same counts of every type, or exhibit a collision |
| `FieldBinding.RelabelledRowsVerify` | server/services/activity-log.js:302-323 | in every verified log, any hashed row of either format can be given any other type: same hash, same head, still verified, counts off by one |
| `FieldBinding.HeadBindsCountsExactly` | server/services/activity-log.js:288-330 | without a condition on the format, the head of a verified log binds the counts it reports exactly when no row is hashed |
| `FieldBinding.EditedRowBreaksOrVerifies` | server/services/activity-log.js:8-9 | editing a row under its hash leaves the head, and is found, at exactly that row, if and only if the edited row does not link |
| `FieldBinding.DeletedRowsBreakOrCollide` | server/services/activity-log.js:8-9 | deleting hashed rows from before a hashed row breaks the log, or the two logs exhibit a collision |
| `FieldBinding.CutLogsVerify` | server/services/activity-log.js:8-9 | cutting off the newest rows is not found by `verify`; the head changes if a hashed row is cut off, or the two logs exhibit a collision |
| `ActivityLogs.IntactExtension` | server/services/activity-log.js:288-323 | a log verifies with one more row exactly when it verified before and the row links to the last hashed row |
| `ActivityLogs.LegacyTablesQualify` | server/services/activity-log.js:288-312 | unhashed rows followed by a chain in the four-field format verify under every instance name, and can be resumed |
| `ActivityLogs.AppendKeepsHealthy` | server/services/activity-log.js:115-128 | an append with an entry type keeps the log verifiable for every verifier, resumable, with the held hash as its head |
| `ActivityLogs.WrittenLogsVerify` | server/services/activity-log.js:82-142 | any run of appends, spacers, anchors and restarts on a resumable table verifies under every instance name; its head is `_lastChainHash`; it keeps the old rows; the count of each entry type is exact; every anchor names the hash of the hashed row before it |
| `ActivityLogs.ResumingNeedsHashedTail` | server/services/activity-log.js:82-95 | an append after reopening verifies exactly when the table's last row carries the true head, or one of two named pairs of strings collides |
| `ActivityLogs.UnhashedTailIsNotResumable` | server/services/activity-log.js:82-95 | an unhashed row behind any log with a hashed one verifies everywhere and cannot be resumed |
| `ActivityLogs.AppendNeedsEntryType` | server/services/activity-log.js:292-297 | an append verifies exactly when its entry type is not empty, or one of two named pairs of strings collides |
| `ActivityLogs.WalkOn` | server/services/activity-log.js:288-323 | one step of the verifier: head, counts and the first broken link of a prefix extended by one row |
| `ActivityLogs.ActivityLog.constructor` | server/services/activity-log.js:82-95 | a new process takes the chain up from the table's last row |
| `ActivityLogs.ActivityLog.Append` | server/services/activity-log.js:115-128 | adds one row, linked to the held hash, with the current format, and makes its hash the held one |
| `ActivityLogs.ActivityLog.AppendSpacer` | server/services/activity-log.js:158-176 | appends the spacer entry, with the given origin or the instance's name |
| `ActivityLogs.ActivityLog.AppendAnchor` | server/services/activity-log.js:249-264 | appends the anchor entry, whose target is the hash held before |
| `ActivityLogs.ActivityLog.Verify` | server/services/activity-log.js:273-334 | accepts exactly the logs in which every hashed row links to the one before it; a broken log is reported at its first unlinked row, with head and counts of the part before |
| `Scheduling.EveryMessageInOnePlace` | server/services/auto-responder.js:1404-1430 | in every reachable state each admitted message is in exactly one place: its debounce, the queue, one turn, or dropped as superseded, full, stale or for terminal activity; at most one turn is in flight, it owns the flag, and the queue holds at most ten |
| `Scheduling.StepPlaces` | server/services/auto-responder.js:898-948 | each step adds a message to the books exactly when it admits it, and otherwise keeps the number of its places |
| `Scheduling.RegroupBag` | server/services/auto-responder.js:927-945 | handing over the first channel and pushing the others back keeps every message, once, and the queue does not grow |
| `Scheduling.FinishBounded` | server/services/auto-responder.js:898-948 | the drain keeps at most one turn in flight and at most ten messages queued, pushed-back ones included |
| `Scheduling.RunPlaces` | server/services/auto-responder.js:898-948 | over every run the books balance and the bounds hold |
| `Scheduling.RunNumbers` | server/services/auto-responder.js:1410-1430 | admitted messages stay distinct, told apart by their order of admission |
| `SchedulingCases.FirstCharExactly` | server/services/auto-responder.js:1303 | the trimmed body starts with the first character that is no blank |
| `SchedulingCases.AnsweredExactly` | server/services/auto-responder.js:1303-1402 | of the messages that are not blank, automatic, federated, the service's own or for a worker: the lead agent's are answered exactly if they are heartbeats, a human's exactly if they are no slash commands, the system heartbeat's always, a relay agent's exactly if they call the lead agent, and nobody else's |
| `SchedulingCases.CommandsExactly` | server/services/auto-responder.js:1376-1391 | slash commands are the humans' messages that start with a slash, and never reach the debounce |
| `SchedulingCases.TerminalNoteExactly` | server/services/auto-responder.js:1348-1351 | exactly a post of the lead agent that passes the first filters and is no heartbeat notes its time for its channel |
| `SchedulingCases.TruncationExactly` | server/services/auto-responder.js:1404-1408 | up to ten thousand characters are kept, longer bodies are cut there and get the note |
| `SchedulingCases.FireExactly` | server/services/auto-responder.js:1415-1429 | a fired debounce starts a turn on an idle scheduler, and on a busy one queues its message with the time exactly if fewer than ten wait |
| `SchedulingCases.AgeDecides` | server/services/auto-responder.js:902-912 | the end of a turn keeps exactly what has waited for at most a minute |
| `SchedulingCases.StaleExactly` | server/services/auto-responder.js:897-948 | it drops a message as stale exactly if it has waited for more than a minute |
| `SchedulingCases.OldTerminalSilencesNothing` | server/services/auto-responder.js:920-925 | when all terminal posts are ten minutes old, nothing is dropped for them, and the first fresh message's channel gets the next turn |
| `SchedulingCases.RecentTerminalSilencesAll` | server/services/auto-responder.js:920-925 | when the lead agent posted on that channel less than ten minutes ago, every fresh message is dropped and no turn starts |
| `SchedulingCases.TurnsAreCoherent` | server/services/auto-responder.js:927-946 | in every run each turn has messages, all of its own channel, in the name of the first one's sender |
| `SchedulingRuns.HandedOverInArrivalOrder` | server/services/auto-responder.js:902-947 | queued messages of a channel reach turns in their order of arrival despite regrouping and dropping; all its messages do, all along, if and only if no debounce of the channel fires on an idle scheduler while its messages wait, which takes a busy return |
| `SchedulingRuns.StepOrdered` | server/services/auto-responder.js:1415-1429 | one step keeps a channel's order exactly if it is not such a debounce |
| `SchedulingRuns.AlwaysOrderedExactly` | server/services/auto-responder.js:897-948 | the same over every run from every ordered state |
| `SchedulingRuns.BusyReturnLetsOvertake` | server/services/auto-responder.js:616-624 | the failing case occurs: a run in which a busy return lets a later message of the channel overtake a queued one |
| `SchedulingRuns.FinishAdvances` | server/services/auto-responder.js:902-947 | a drain hands a queued message over, drops it, or strictly shrinks the set of other channels ahead of it |
| `SchedulingRuns.ServedWithinDrains` | server/services/auto-responder.js:902-947 | with k other channels ahead, a queued message is handed over or dropped once k + 1 turns have ended, whatever else arrives |
| `SchedulingRuns.QueuedMessagesAreServed` | server/services/auto-responder.js:902-947 | the same from every reachable state, without further hypotheses |
| `SchedulingRuns.FinishStartsNextTurn` | server/services/auto-responder.js:898-948 | when a turn that reached its `try` ends and messages remain queued, a next turn with messages has been started |
| `SchedulingRuns.StuckForever` | server/services/auto-responder.js:582-594 | once the flag is up without a turn in flight, no message is handed over any more |
| `SchedulingRuns.StuckExactlyAfterPermission` | server/services/auto-responder.js:578-598 | a run ends stuck exactly when one of its turns answered a permission prompt |
| `AutoResponders.AutoResponder.constructor` | server/services/auto-responder.js:88-92 | the module's variables at load |
| `AutoResponders.AutoResponder.Screen` | server/services/auto-responder.js:1303-1402 | the sequence of early returns lets exactly the specified messages reach the terminal-activity note, and exactly the specified ones the debounce |
| `AutoResponders.AutoResponder.OnNewMessage` | server/services/auto-responder.js:1295-1431 | a post filters, notes the lead agent's terminal activity and restarts its channel's debounce |
| `AutoResponders.AutoResponder.Debounce` | server/services/auto-responder.js:1404-1430 | the truncated message replaces what waited in its channel's debounce, which is superseded |
| `AutoResponders.AutoResponder.OnDebounce` | server/services/auto-responder.js:1415-1429 | a fired debounce queues its message, drops it when ten wait, or starts a turn |
| `AutoResponders.AutoResponder.ProcessMessage` | server/services/auto-responder.js:558-629 | a turn up to its `try`, with its three ways out: permission reply, busy session, entry |
| `AutoResponders.AutoResponder.EndTurn` | server/services/auto-responder.js:897-948 | the `finally` block: release, drop stale, drop all when the terminal is active, else hand over the first channel |
| `AutoResponders.AutoResponder.DropStale` | server/services/auto-responder.js:902-912 | splits the queue by age into kept and dropped messages, in order |
| `AutoResponders.AutoResponder.HandOver` | server/services/auto-responder.js:927-946 | hands the first channel's messages to a turn and pushes the others back grouped by channel |
| `AutoResponders.GroupByChannel` | server/services/auto-responder.js:927-931 | groups by channel with keys in order of first occurrence and each channel's messages in order |
| `Integrity.BaselineHashNeverChanges` | server/services/integrity.js:110-265 | over every run of edits, checks, restarts and unlocks that keeps a monitored file present (commit unchanged, no reset), the external baseline's hash of that file, its anchor's match and the running process's hash never change |
| `Integrity.TamperingAlwaysLocks` | server/services/integrity.js:704-865 | at any point of such a run, whatever resets came before it, a restart, or a check ten minutes or more after the last reset, that finds the file changed leaves lockdown on |
| `Integrity.BootKeepsPin` | server/services/integrity.js:110-265 | one restart keeps the pin, and locks down when the file differs |
| `Integrity.CheckKeepsPin` | server/services/integrity.js:704-865 | one check keeps the pin, and ten minutes or more after the last reset locks down when the file differs |
| `Integrity.SavedBaselinePins` | server/services/integrity.js:371-435 | a baseline just saved for what is on disk pins every monitored file exactly when a secret is configured or there never was an anchor |
| `Integrity.TrustedBootPins` | server/services/integrity.js:110-364 | so does a restart that trusts what it finds, the first boot above all, under the same exact condition |
| `Integrity.ResetPins` | server/services/integrity.js:442-499 | and an administrator's reset |
| `Integrity.OnlyUnlockLiftsLockdown` | server/services/integrity.js:704-865 | without a human's unlock, lockdown stays on over every run, resets and restarts included |
| `Integrity.VerifyLocksExactly` | server/services/integrity.js:704-865 | a check locks down exactly on a critical deviation ten minutes or more after the last reset, or without one; it changes nothing else but a missing baseline file |
| `Integrity.InGraceExactly` | server/services/integrity.js:833-834 | the grace period is the ten minutes after a reset |
| `Integrity.GraceLastsTenMinutes` | server/services/integrity.js:442-499 | a file changed after a reset makes a check lock down exactly from ten minutes after the reset on |
| `Integrity.SavedExactly` | server/services/integrity.js:404-435 | a saved baseline records hashes, users, commit and time as observed |
| `Integrity.AnchorExactly` | server/services/integrity.js:371-377 | there is an anchor exactly with a non-empty secret, and it is the keyed hash of the file |
| `Integrity.MonitoredExactly` | server/services/integrity.js:56-76 | monitored are the critical files, the worker files and .env |
| `Integrity.TamperingRestoresKnownGood` | server/services/integrity.js:230-265 | a restart that finds changed files at an unmoved commit locks down and goes on with the known-good hashes and users, leaving the baseline file |
| `Integrity.PulledFilesAreAccepted` | server/services/integrity.js:203-229 | a baseline taken at one commit accepts whatever files come with another one, without lockdown |
| `Integrity.RestartForgetsMissingFiles` | server/services/integrity.js:187-193 | a restart keeps vouching for a file exactly when the file is present, or some other file was changed |
| `Integrity.AlwaysVouchedExactly` | server/services/integrity.js:110-265 | over every run without reset at an unmoved commit, whatever happens to the file, its hash is vouched for in every state if and only if every restart finds the file there or some file changed |
| `Integrity.WorkersLoadUnlessFilesChanged` | server/server.js:1246-1258 | a restart loads the workers exactly unless it finds files changed against a baseline with its anchor in order; every distrusting restart locks down, also those that load them |
| `Integrity.DeletedFileReturnsChanged` | server/services/integrity.js:187-193 | delete, restart, put back changed, restart: no lockdown, and the new hash is vouched for |
| `Integrity.ForgedBaselineNeverTakesOver` | server/services/integrity.js:158-181 | a baseline file that parses but does not match its anchor is never replaced or re-anchored by edits, checks and restarts, and from the first restart on the system is locked |
| `Integrity.MissingBaselineIsRewritten` | server/services/integrity.js:281-355 | every restart that misses the baseline file ends with one for what is on disk, pinning it exactly with a secret or without an earlier anchor; with a secret the next restart trusts it; lockdown comes on exactly for a distrusted deletion |
| `Integrity.RestartReplacesExactlyGarbledFiles` | server/services/integrity.js:161-355 | of the files that do not carry the stored anchor, a restart replaces exactly the unparsable ones, re-anchored when a secret is configured and without lockdown; on the others it locks down and leaves file and anchor alone |
| `IntegrityServices.IntegrityService.constructor` | server/services/integrity.js:30-54 | a new process: no baseline in memory, update mode off, outside state as left |
| `IntegrityServices.IntegrityService.HashCritical` | server/services/integrity.js:113-120 | the loop over the critical files records exactly the present ones |
| `IntegrityServices.IntegrityService.HashMonitored` | server/services/integrity.js:113-143 | the loops over critical files, workers and .env record exactly the present monitored files |
| `IntegrityServices.IntegrityService.SaveExternalBaseline` | server/services/integrity.js:404-435 | writes the in-memory baseline with the commit, and its anchor when a secret is configured |
| `IntegrityServices.IntegrityService.TakeStock` | server/services/integrity.js:113-155 | replaces the in-memory baseline by what is on disk and in the user table, keeping the grace period |
| `IntegrityServices.IntegrityService.FindTampered` | server/services/integrity.js:187-193 | collects exactly the present files whose hash differs from the external baseline's |
| `IntegrityServices.IntegrityService.CompareWithExternal` | server/services/integrity.js:161-277 | distrust exactly on an anchor mismatch or on changed files at an unmoved commit; both lock down, and the second restores the known-good baseline in memory |
| `IntegrityServices.IntegrityService.AcceptMissingBaseline` | server/services/integrity.js:281-352 | a missing baseline file locks down exactly when database, users and anchor exist and no admin reset is recent |
| `IntegrityServices.IntegrityService.JudgeBaselineFile` | server/services/integrity.js:161-352 | trust or distrust of the baseline file, parsed, unparsable or missing, with what is left in memory and logged |
| `IntegrityServices.StartupIsLogged` | server/services/integrity.js:145-352 | every distrusting startup logs its reason, an accepted pull is logged, and so is every missing file |
| `IntegrityServices.CheckLogsExactly` | server/services/integrity.js:820-847 | what a check logs: a restored file, and a violation, as one in the grace period exactly in the ten minutes after a reset |
| `IntegrityServices.IntegrityService.EstablishBaseline` | server/services/integrity.js:110-364 | startup as one transition of the specification; file modes tightened on every way out; update mode untouched |
| `IntegrityServices.IntegrityService.ResetBaseline` | server/services/integrity.js:442-499 | takes stock, saves, starts the grace period |
| `IntegrityServices.IntegrityService.FileViolations` | server/services/integrity.js:712-738 | reports exactly the deleted and modified baseline files, all critical |
| `IntegrityServices.IntegrityService.WorkerViolations` | server/services/integrity.js:741-753 | reports exactly the workers unknown to the baseline, all critical |
| `IntegrityServices.IntegrityService.FileSystemViolations` | server/services/integrity.js:711-753 | some violation, and some critical one, exactly when a file deviates |
| `IntegrityServices.IntegrityService.OtherViolations` | server/services/integrity.js:756-818 | a critical violation exactly when users, configuration or the secrets file's mode deviate; .env's mode alone is not critical |
| `IntegrityServices.IntegrityService.Violations` | server/services/integrity.js:704-818 | empty exactly when all is clean; critical exactly when a critical deviation exists |
| `IntegrityServices.IntegrityService.Verify` | server/services/integrity.js:704-865 | restores a missing baseline file, and locks down exactly on a critical deviation outside the grace period |
| `IntegrityServices.IntegrityService.EnterUpdateMode` | server/services/integrity.js:506-532 | takes the mutex, mode and timer and starts the grace period, or fails and changes nothing when the mutex is held |
| `IntegrityServices.IntegrityService.ExitUpdateMode` | server/services/integrity.js:537-552 | frees everything of update mode, whoever holds it |
| `IntegrityServices.IntegrityService.RunGit` | server/services/integrity.js:574-646 | the git commands succeed exactly when each does and the commit is the expected one |
| `IntegrityServices.GitSucceedsExactly` | server/services/integrity.js:574-646 | a successful git part ends on the commit asked for and expected; it succeeds when every command works and these agree |
| `IntegrityServices.UpdateLogsExactly` | server/services/integrity.js:648-682 | an update logs a failure exactly when it fails, and every new baseline |
| `IntegrityServices.IntegrityService.TryReset` | server/services/integrity.js:442-499 | a new baseline; when listing the worker directory throws, only the critical files' hashes are replaced in memory |
| `IntegrityServices.IntegrityService.Rebaseline` | server/services/integrity.js:655-682 | new baseline and check; a failure of git, of either of them, leads to the recovery's new baseline, which may fail too; the status says which |
| `IntegrityServices.IntegrityService.PerformUpdate` | server/services/integrity.js:564-697 | whichever step fails, git, new baseline, check or recovery: mutex free, mode off, timer cleared, exactly one pair of entered and exited entries once the mutex was taken; it fails exactly when the mutex was held or git, new baseline or check failed; the baseline is what is on disk when the update or else its recovery succeeds; no lockdown is added |
| `UpdateProtocol.ExclusiveExactlyUndisturbed` | server/server.js:1434-1443 | over any order of requests, unguarded calls, completions and timers: no two updates overlap at any time, with mutex, mode, timer and log entries in step, if and only if no call meets a held mutex and no timer fires on a running update |
| `UpdateProtocol.ExclusiveUnlessDisturbed` | server/services/integrity.js:506-552 | one event keeps that exactly if it is neither |
| `UpdateProtocol.StartsExactly` | server/server.js:1426-1443 | an update starts exactly by a request without lockdown on a free mutex, or by an unguarded call |
| `UpdateProtocol.TimerLetsUpdatesOverlap` | server/services/integrity.js:519-522 | once the timer has fired on a running update, the next request overlaps it, and the first one's end frees the mutex under the second |
| `UpdateProtocol.UnguardedCallFreesMutex` | server/services/integrity.js:664-686 | a call that finds the mutex taken frees it while the other update still runs |
| `Federation.StartsSafe` | server/services/federation.js:286-336 | a node without federated rows starts in the safe invariant |
| `Federation.StepSafe` | server/services/federation.js:286-369 | every event, losses and overlaps included, keeps every issued message at the hub or received, rows unique and faithful, and only received messages under acknowledgement |
| `Federation.RunSafe` | server/services/federation.js:286-369 | the invariant over every run |
| `Federation.CopyIsFaithful` | server/services/federation.js:341-362 | the stored row: id behind `fed_`, body, `user@node`, source, channel and origin or their defaults, the reformatted original time or else the hub's |
| `Federation.IngestExactly` | server/services/federation.js:341-400 | ingesting adds the copy exactly if its channel is federated and its id new, and dispatches exactly if its channel is federated and it is no automatic answer |
| `Federation.DeliveredOrHeld` | server/services/federation.js:286-369 | over any order of polls, pushed polls, lost replies, lost acks and reconnects, each message of a federated channel is still at the hub or stored in exactly one row `fed_<id>` with its body, its signed sender, its node, channel, origin and time; others are never stored |
| `Federation.IngestAllStores` | server/services/federation.js:309-317 | one reply's loop stores each of its federated messages once, keeps all rows, and invents none |
| `Federation.CompletedPollDrains` | server/services/federation.js:293-325 | a poll whose reply and ack arrive takes its messages off the hub and leaves the federated ones stored |
| `Federation.DispatchedOncePerArrival` | server/services/federation.js:341-400 | worker listeners see a message exactly once for each reply that brings it, also when its insert is refused |
| `Federation.WatermarkMovesOnlyOnNumbers` | server/services/federation.js:308-311 | `_lastPollTimestamp` stays null through a reply exactly when none of its timestamps reads as a positive number |
| `Federation.LexLessExactly` | server/services/federation.js:310 | strings compare at their first difference, a prefix first |
| `Federation.GreaterThanNullExactly` | server/services/federation.js:310 | against null a timestamp is greater exactly if it reads as a positive number |
| `Federation.WatermarkStaysNull` | server/services/federation.js:308-311 | with date-string timestamps it stays null over every run |
| `Federation.ThreeFailuresDisconnect` | server/services/federation.js:250-284 | while only heartbeats register, the node is connected exactly when the sequence ends in fewer than three failures |
| `Federation.PollReconnectKeepsFailures` | server/services/federation.js:290-294 | the failing case occurs: after a poll's reconnect one heartbeat failure disconnects |
| `Federation.CountsPresentFailuresExactly` | server/services/federation.js:250-294 | over runs of all events, the stored count is that of the failures on the present connection, whenever connected, if and only if no poll or relay reconnects with failures on the count |
| `Federation.ConnectionEndsOnThirdFailure` | server/services/federation.js:264-284 | and then a connection ends exactly with the third failure in a row on it |
| `FederationServices.FederationService.constructor` | server/services/federation.js:26-56 | a service that has not connected or polled |
| `FederationServices.FederationService.Heartbeat` | server/services/federation.js:250-284 | one heartbeat: reconnect or beat, the failure count and the third failure |
| `FederationServices.FederationService.Poll` | server/services/federation.js:290-332 | registers when disconnected, stays disconnected and polls nothing when that fails; takes in the reply, and acknowledges exactly the ids it received |
| `FederationServices.FederationService.IngestBatch` | server/services/federation.js:307-317 | the loop over a reply, in order, with the watermark and the ids to acknowledge |
| `FederationServices.FederationService.IngestMessage` | server/services/federation.js:341-400 | skips channels that are not federated, inserts unless the id exists, and dispatches either way unless the origin is the auto-responder |
| `FederationServices.FederationService.RelayMessage` | server/services/federation.js:113-147 | one reconnect attempt, then one request; relayed exactly when both succeed |
| `Cascade.IngestedCopiesAreFinal` | server/services/auto-responder.js:1306-1320 | an ingested copy sets off no relay and no answer |
| `Cascade.CopiesAreIngested` | server/services/federation.js:349-369 | the hub sends a message to every other node, each copy signed with its sender's node, and not back |
| `Cascade.CopiesAreSigned` | server/services/federation.js:351-354 | a copy keeps channel, body and origin, and is signed as the ingesting node signs it |
| `Cascade.EveryOtherNodeGetsACopy` | server/services/federation.js:305-317 | a message at the hub reaches every other node |
| `Cascade.RelayedExactly` | server/routes/messages.js:278-293 | a post reaches the hub exactly if its node is connected, its channel federated and its author local, marked by its kind; the auto-responder's likewise, the thinking indicator never |
| `Cascade.AnsweredExactly` | server/routes/messages.js:306-316 | a post through the API can be answered exactly if it passes the filters as a local message or is a slash command |
| `Cascade.CopiesAreNotRelayed` | server/routes/messages.js:278-293 | a copy posted again under the name it arrived with is relayed by neither guard |
| `Cascade.AnswersAreNotAnswered` | server/services/auto-responder.js:968-982 | an auto-responder's post travels one hop, tagged `auto_responder`, and what arrives elsewhere sets off nothing |
| `Cascade.CausesLighten` | server/routes/messages.js:278-293 | whatever an activity sets off weighs strictly less than the activity |
| `Cascade.CoursesAreShort` | server/routes/messages.js:278-316 | no course of events, in any order, is longer than the weight it starts with |
| `Cascade.OnePostCascadeIsLinear` | server/routes/messages.js:278-316 | one post through the API in n nodes, with at most k posts for each turn or slash command, sets off at most (k + 1)(n + 2) activities |
| `ActionEvidence.HierarchyIsRanked` | server/services/action-evidence.js:926 | the hierarchy list and the ranking agree in both directions |
| `ActionEvidence.FileFieldsExactly` | server/services/action-evidence.js:44-269 | the vocabulary by evidence field, for files, hashes and commits: which verbs need it |
| `ActionEvidence.DeployFieldsExactly` | server/services/action-evidence.js:44-269 | the same for deployments, verifications and commands |
| `ActionEvidence.ResearchFieldsExactly` | server/services/action-evidence.js:44-269 | the same for searches, fetches and analyses |
| `ActionEvidence.OtherFieldsExactly` | server/services/action-evidence.js:44-269 | the same for messages, failures and boundaries; only a mere claim needs nothing |
| `ActionEvidence.FindDowngrade` | server/services/action-evidence.js:924-939 | finds the highest verb of the trail strictly below the claim in the hierarchy, and none exactly when there is none |
| `ActionEvidence.JudgeClaims` | server/services/action-evidence.js:581-611 | each claim gets its status before contradictions; each unsupported claim, in order, a gap that names the right downgrade or CLAIMED |
| `ActionEvidence.Evaluate` | server/services/action-evidence.js:550-655 | level, statuses, gaps and trail summary of a live trace, by what the trail holds for each claim |
| `ActionEvidence.VerifiedExactlyWhenBacked` | server/services/action-evidence.js:613-646 | `verified` exactly when every claim's verb has entries, all complete, and no FAILED entry names it |
| `ActionEvidence.LevelsExactly` | server/services/action-evidence.js:627-646 | contradicted exactly when a backed claim has a failure on record, claimed exactly when there are claims and no evidence for any, partial exactly in between |
| `ActionEvidence.StatusesExactly` | server/services/action-evidence.js:581-629 | a claim is unverified without an entry, partial with an incomplete one, contradicted when backed with a failure on record |
| `ActionEvidence.OnlyContradictionLowers` | server/services/action-evidence.js:550-646 | on any trail, one more complete entry lowers the level exactly when no claim was contradicted before and one is after |
| `ActionEvidence.MoreEvidenceHurtsExactly` | server/services/action-evidence.js:550-646 | on a trail without FAILED, one more complete entry lowers the level if and only if it is a FAILED entry for a verb that some claim names and that is then backed |
| `ActionEvidence.FailureContradicts` | server/services/action-evidence.js:613-629 | on any trail, a FAILED entry for a claimed and then backed verb makes the message contradicted |
| `ActionEvidence.DetectClaims` | server/services/action-evidence.js:882-910 | keeps the first match of each verb and 50-character window, sorted by position |
| `ActionEvidence.FirstOfKeysCovers` | server/services/action-evidence.js:888-904 | deduplication keeps exactly first matches of their verb and window, no two of one key, and covers every match's key |
| `ActionEvidence.SortedSorts` | server/services/action-evidence.js:906-907 | the sort orders by position and permutes |
| `ActionEvidence.SortIsStable` | server/services/action-evidence.js:906-907 | claims at one position keep their order |
| `ActionEvidence.DetectionIsSoundAndComplete` | server/services/action-evidence.js:882-910 | every claim is a match; every match is claimed itself or shares its window with a claim of its verb; claims come in order of position |
| `Traces.StepTrail` | server/services/action-evidence.js:398-536 | each step leaves every trail alone, except that a report accepted for an active trace appends one entry; no step reactivates a trace |
| `Traces.TrailsOnlyGrow` | server/services/action-evidence.js:444-536 | over every run, lost processes included, a trail only grows at its end, and is frozen once evaluated, expired, shut down or without its process |
| `Traces.RunMirrors` | server/services/action-evidence.js:398-501 | in every reachable state the memory trail equals the stored one |
| `Traces.CleanupIsInvisible` | server/services/action-evidence.js:946-967 | `getTrace` answers the same before and after cleanup, shutdown or loss of the memory |
| `Traces.StartExactly` | server/services/action-evidence.js:398-433 | starting leaves an empty active trace in memory and table |
| `Traces.CompleteExactly` | server/services/action-evidence.js:458-467 | an entry is complete exactly if every required field is there |
| `Traces.JudgeExactly` | server/services/action-evidence.js:656-663 | judging freezes the trace and records its level |
| `Traces.CleanupExactly` | server/services/action-evidence.js:946-967 | cleanup forgets exactly the traces more than an hour old and marks the active ones of them expired, with their trail |
| `Traces.ShutdownExactly` | server/services/action-evidence.js:1118-1134 | shutdown forgets all traces and marks the active ones stopped, with their trail |
| `Traces.ActionEvidenceProtocol.constructor` | server/services/action-evidence.js:398-433 | a service with no traces in memory over a given table |
| `Traces.ActionEvidenceProtocol.StartTrace` | server/services/action-evidence.js:398-433 | opens an empty active trace in memory and table, or fails without agent or task |
| `Traces.ActionEvidenceProtocol.RecordEvidence` | server/services/action-evidence.js:444-501 | fails exactly on an unknown trace, an inactive one or an unknown verb; else appends an entry, complete exactly when all required fields are there, in memory and table |
| `Traces.ActionEvidenceProtocol.GetTrace` | server/services/action-evidence.js:509-536 | the memory copy, else the stored one, else nothing |
| `Traces.ActionEvidenceProtocol.EvaluateMessage` | server/services/action-evidence.js:550-673 | judges and freezes a live trace and returns its whole evaluation; without one every claim is unverified and a gap |
| `Traces.ActionEvidenceProtocol.Persist` | server/services/action-evidence.js:957-965 | writes the final row of exactly the active traces given |
| `Traces.ActionEvidenceProtocol.CleanUp` | server/services/action-evidence.js:946-972 | finalizes and forgets exactly the traces older than an hour |
| `Traces.ActionEvidenceProtocol.ShutDownService` | server/services/action-evidence.js:1118-1136 | finalizes the active traces and forgets all |
| `LoginLimiter.FivePerWindowExactly` | server/routes/auth.js:27-139 | from a new installation, over any mix of logins and restarts on a clock that does not go back: no window of an address counts more than five failed checks if and only if no check slips, that is, none comes before the table is read while it holds a full live record of the address |
| `LoginLimiter.WindowHoldsFiveAndSlips` | server/routes/auth.js:27-139 | over every such run each window counts five failed checks at most, and the ones that slip into this window; a restart lets one slip at most |
| `LoginLimiter.FifteenMinutesHoldTenAndSlips` | server/routes/auth.js:121-139 | any fifteen minutes hold ten failed checks at most, and the slips into two windows; their last moment included unless the table was read on the edge of a window |
| `LoginLimiter.AddressGetsTenFailures` | server/routes/auth.js:121-139 | so an address gets at most ten failed checks in any fifteen minutes over every run in which none slips, restarts or not; runs of one process are such |
| `LoginLimiter.RunTracked` | server/routes/auth.js:27-139 | over every such run the address's row counts exactly the failures of the last window, without a row that window is over, memory agrees with the row once the table is read, and windows do not overlap |
| `LoginLimiter.RefusedExactly` | server/routes/auth.js:57-139 | an address is refused exactly with five failures in a record of at most fifteen minutes; an address and name within one, five or fifteen minutes of the last failure from the fifth, tenth or fifteenth on |
| `LoginLimiter.CountedExactly` | server/routes/auth.js:92-119 | a failure counts in the live record or opens a new one, notes its time, and touches no other record |
| `LoginLimiter.SuccessForgets` | server/routes/auth.js:247-248 | a good login forgets the failures of its address and name and leaves the address's record |
| `LoginLimiter.TwoWindows` | server/routes/auth.js:121-139 | an interval no longer than the distance of windows meets two windows at most |
| `LoginLimiter.RunSyncs` | server/routes/auth.js:27-55 | over every run from a new installation, restarts included: once the table is read it holds every record of the map, and else only expired ones; before that the map is empty |
| `LoginLimiter.ReloadAnswersAlike` | server/routes/auth.js:24-41 | after every run that has read the table, reloading it answers both checks as the lost map would, except for a record exactly as old as the window at that instant |
| `LoginLimiter.RestartLetsOneThrough` | server/routes/auth.js:146-173 | after every run, a blocked address is checked once more after a restart, that failure is counted in the old window, and it is blocked again |
| `LoginLimiter.KeyIsUniqueExactly` | server/routes/auth.js:64-66 | the record of an address and a name is theirs alone exactly when neither puts a second colon into the key |
| `LoginRoutes.LoginRoute.constructor` | server/routes/auth.js:23-25 | a new process: empty map, table as left, not yet read |
| `LoginRoutes.LoginRoute.InitBruteForceDb` | server/routes/auth.js:27-46 | reads the table once: live rows into the map, the others deleted |
| `LoginRoutes.LoginRoute.LiveRows` | server/routes/auth.js:36-43 | selects exactly the rows younger than the window |
| `LoginRoutes.LoginRoute.CheckIpRateLimit` | server/routes/auth.js:123-139 | blocks exactly with five failures in a live window, and forgets an expired record |
| `LoginRoutes.LoginRoute.CheckBruteForce` | server/routes/auth.js:64-90 | blocks exactly within the lockout of the record's count, and forgets an expired record |
| `LoginRoutes.LoginRoute.RecordFailedLogin` | server/routes/auth.js:92-119 | counts the failure for address and user, and for the address, in map and table |
| `LoginRoutes.LoginRoute.BumpKey` | server/routes/auth.js:97-105 | opens a new window or counts in the live one |
| `LoginRoutes.LoginRoute.Login` | server/routes/auth.js:146-245 | the route as one transition, and exactly when it gives each of its answers |
| `RemotePoller.PageMeaning` | server/routes/messages.js:34-58 | the page is the newest unseen rows, as many as fit, oldest first, none twice |
| `RemotePoller.NothingDispatchedTwice` | server/services/federated-runtime.js:281-313 | over non-overlapping polls, whatever arrives with whatever stamp, no message is dispatched twice |
| `OverlappingPolls.NothingTwiceExactly` | server/services/federated-runtime.js:281-324 | over any interleaving of requests, replies, failures and deliveries, no message is dispatched twice, nor ever will be, if and only if no reply brings a row that is in hand or already dispatched |
| `OverlappingPolls.StepOnce` | server/services/federated-runtime.js:289-306 | the same for one event |
| `OverlappingPolls.DispatchedRowsComeAgainLate` | server/services/federated-runtime.js:291-301 | a reply brings a dispatched row again only if the watermark has moved, up to the row or past it, since the request was sent |
| `OverlappingPolls.SlowReplyRepeats` | server/services/federated-runtime.js:291-324 | both ways to a second dispatch occur |
| `RemotePoller.PollComplete` | server/services/federated-runtime.js:281-313 | a poll whose unseen rows fit on the page dispatches every message of the channel newer than the start |
| `RemotePoller.EverythingDispatchedExactly` | server/services/federated-runtime.js:281-324 | after any run every message newer than the start is dispatched or still ahead of the watermark, if and only if no page overflowed and nothing arrived between start and watermark |
| `RemotePoller.UncalmLoses` | server/services/federated-runtime.js:297-301 | an arrival at or below the watermark is lost at once, as is what does not fit on a page |
| `RemotePoller.PollDispatchesNewestLosesRest` | server/services/federated-runtime.js:284-301 | a poll dispatches the newest twenty unseen rows and loses exactly the others, whose number is what exceeds twenty |
| `RemotePoller.LostForever` | server/services/federated-runtime.js:297-301 | a message behind the watermark without having been dispatched never is |
| `RemotePoller.FederatedRuntime.constructor` | server/services/federated-runtime.js:273-278 | every channel's watermark starts at the present |
| `RemotePoller.FederatedRuntime.PollChannel` | server/services/federated-runtime.js:281-313 | dispatches a reply in order and raises the watermark to its latest stamp; a failed request changes nothing |
| `DiffScanner.ParseDecimal` | server/scripts/secret-scanner.js:308-311 | reading back a printed decimal number gives the number |
| `DiffScanner.HeaderParses` | server/scripts/secret-scanner.js:308-312 | the hunk-header pattern reads the new file's start line from every printed header |
| `DiffScanner.WalkBodyLine` | server/scripts/secret-scanner.js:314-331 | how each printed body line moves file, line number and visits |
| `DiffScanner.WalkFiles` | server/scripts/secret-scanner.js:300-332 | without `++` lines, the walk visits every added line once, in order, with its file, and with its number shifted by the markers before it in its hunk |
| `DiffScanner.FileSkew` | server/scripts/secret-scanner.js:314-331 | that shift is absent exactly when no marker comes before an added line of its hunk |
| `DiffScanner.FilesVisitCount` | server/scripts/secret-scanner.js:314-331 | the walk never visits more lines than were added, and visits all only if no added line starts with `++` |
| `DiffScanner.WalkFindsEveryAddedLine` | server/scripts/secret-scanner.js:296-332 | walking a printed diff visits exactly the added lines with file and true number if and only if no added line starts with `++` and no marker comes before an added line of its hunk |
| `DiffScanner.NumbersAreTrue` | server/scripts/secret-scanner.js:308-316 | the numbers to be visited are true: the new file has that text at that place, counted from the hunk's start |
| `DiffScanner.FindingsExactly` | server/scripts/secret-scanner.js:316-329 | a finding is reported exactly if the line scanner makes it on a visited line that is not on the allow list, in a file that is not skipped, and it carries that line's number |
| `DiffScanner.SecretsAreReportedExactly` | server/scripts/secret-scanner.js:287-339 | the scan of a printed diff without `++` lines and early markers reports exactly what the line scanner finds on its added lines that are not exempt, at their true numbers |
| `DiffScanner.ScanGitDiff` | server/scripts/secret-scanner.js:287-339 | the findings are those of the visited lines, in order, at the walk's line numbers, allowlisted lines and skipped files left out |
| `DiffScanner.ScanLine` | server/scripts/secret-scanner.js:300-331 | one pass of the loop is one step of the walk, with the findings of the line it visits |
| `BehavioralBaselines.ExactMeanForThirtyDays` | server/services/behavioral-baseline.js:52-71 | for the first thirty updates the stored average is the exact mean of the samples |
| `BehavioralBaselines.AverageStaysInRange` | server/services/behavioral-baseline.js:52-71 | forever after it lies between the smallest and the largest sample |
| `BehavioralBaselines.OldHabitsFade` | server/services/behavioral-baseline.js:52-71 | from then on each equal day leaves 29/30 of the distance to its count |
| `BehavioralBaselines.CheckAgent` | server/services/behavioral-baseline.js:108-142 | flags exactly the metrics above three times a positive average, and none before three days |
| `BehavioralBaselines.OrdinaryDaysAreNotFlagged` | server/services/behavioral-baseline.js:130-142 | a count of at most three times the smallest sample is never flagged |
| `BehavioralBaselines.FlaggedExactly` | server/services/behavioral-baseline.js:130-142 | in the first thirty days the threshold is exceeded exactly when count times days is more than three times a positive total |
| `BehavioralBaselines.StoredRowIsRolling` | server/services/behavioral-baseline.js:27-101 | over any series of daily updates of the whole table, an agent has a row exactly if it was active, and it is the rolling average of its active days |
| `BehavioralBaselines.StoredRowLaws` | server/services/behavioral-baseline.js:52-142 | so the stored average is the exact mean for thirty active days, always within the range of the days, and at most three times the quietest day is never flagged |
| `BehavioralBaselines.StoredRowFlags` | server/services/behavioral-baseline.js:108-142 | from the third to the thirtieth active day a metric is flagged exactly when its count times the days is more than three times a positive total, and before never |
| `BehavioralBaselines.BehavioralBaseline.constructor` | server/services/behavioral-baseline.js:17-21 | an empty table of averages |
| `BehavioralBaselines.BehavioralBaseline.UpdateAllBaselines` | server/services/behavioral-baseline.js:27-101 | every active agent gets its next row, every other row stays |
| `BehavioralBaselines.BehavioralBaseline.UpdateAgent` | server/services/behavioral-baseline.js:52-92 | one agent's averages take in one more day, or start with it |
| `DedupWindow.AcceptedAreApart` | mcp-server/index.js:155-165 | over every series of calls on a clock that does not go back, accepted messages of one hash are more than thirty seconds apart |
| `DedupWindow.LetThroughExactly` | mcp-server/index.js:155-165 | a message is let through exactly if every equal one was let through more than thirty seconds ago |
| `DedupWindow.KeyIsSenderAndStart` | mcp-server/index.js:150-153 | messages of one sender have one key exactly if their first two hundred characters agree |
| `DedupWindow.KeysOfSendersDiffer` | mcp-server/index.js:150-153 | senders without a colon in their names share no key |
| `DedupWindow.DedupFilter.constructor` | mcp-server/index.js:147-148 | the empty map represents the empty history |
| `DedupWindow.DedupFilter.IsDuplicate` | mcp-server/index.js:155-165 | the pruned map answers exactly as the full history would, whatever that is, and represents the history after the call |
| `DedupWindow.DedupFilter.Prune` | mcp-server/index.js:158-161 | deletes exactly what has left the window, and still represents the history |

## Left out

- HTTP, TLS, Socket.IO, SQLite and file-system failures: tables are maps or sequences with in-order writes, the disk is a map from path to hash, and an insert happens in the step that issues it.
- Language-model calls, prompts, the text of aggregated turns, costs, triage and the effects of slash commands beyond their posts: a turn's content beyond its messages is arbitrary.
- Exceptions before the `try` of `processMessage`, and the rate and length of turns: a turn's early return is a free choice of the environment.
- JavaScript strings are sequences of characters without UTF-16 or UTF-8 encoding; `trim` knows the ASCII blanks, the no-break space and the byte-order mark only.
- Regular expressions of claim patterns, secret patterns and worker names: lists of matches or predicates on text. The hunk-header pattern is modelled.
- The JSON text of log details and the evidence entry's own hash; the evidence object handed to `recordEvidence` is a value, so changes made to it afterwards by its owner are not modelled.
- `getChainHead`, `getSpacers`, `getRecent`, cross-provider verification and `break-glass.js` rows: queries, or rows outside the appended chain.
- ActivityLogs.WrittenLogsVerify: assumes that the startup read of the last row ends before the first append, that inserts land in issue order, and that callers name a non-empty entry type other than `anchor`.
- Integrity.BaselineHashNeverChanges: nobody else writes or deletes the external baseline file during the run (the forged, the unparsable and the missing file have lemmas of their own), and `.dev` mode, deploy mode at startup and pulls that move the commit are left out.
- IntegrityServices.IntegrityService.PerformUpdate: no timer firing and no other request inside it; those interleavings are module UpdateProtocol.
- Traces.ActionEvidenceProtocol.EvaluateMessage: of the evaluation written to the table only the level is kept.
- The hub: it keeps a message until it is acknowledged and may answer a poll with any of the messages it holds, up to fifty.
- The notification row that ingestion posts to the lead agent's channel, which is repeated like the dispatch, counts as a local post; a message with a null body, which makes ingestion throw, is not modelled.
- Cascade.OnePostCascadeIsLinear: worker listeners and command-line sessions that read a message and post through the API start a cascade of their own; the number of posts in one turn is a parameter.
- LoginLimiter.FivePerWindowExactly: the two clock readings of one login are one, requests do not overlap, and addresses do not begin like the prefix `iponly:`.
- DiffScanner.WalkFindsEveryAddedLine: paths are printed as git prints plain ones, without quotes or trailing tabs; a file without hunks (a pure rename) can only stand in the lines before the next file.
- A file mode that cannot be tightened at startup, and a startup baseline or pre-load check that throws, after which server.js loads the workers all the same.
- The scanner of one line (`scanText`) with its patterns, and its full-file and directory scans.
- BehavioralBaselines.ExactMeanForThirtyDays: averages are exact reals, so floating-point rounding is not modelled. The SQL filters that count a day's actions are inputs; the check's filters count fewer actions than the update's.
- Order of agents in `updateAllBaselines` and of keys in loops over maps: any order.
- Message posting's security scan, claim verification and signatures, and the `before` filter and other limits of the message list.
- Client UI, setup wizard, keychain, folio routes, maintenance, key exchange and signatures with the hub, message classification tables.
