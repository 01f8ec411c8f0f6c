# Verified models of the meeting copilot

A Dafny model of the concurrent protocols and exact algorithms of the meeting
copilot: the locks and queues of its backend and CLI worker, the audio gateway,
its versioned and merged records, and the algorithms that clean, window, search
and score text and audio. `dafny verify dfyconfig.toml` verifies the project.

- `WorkerLock.dfy`: the lease lock around a CLI execution. Any number of calls in any
  number of worker processes interleave with time, lost Redis replies and crashes.
- `EventSequencer.dfy`: numbering of meeting events under an asyncio lock nested around a
  PostgreSQL advisory lock, with row updates, commits and rollbacks interleaved.
- `EngineManager.dfy`: per-meeting serialisation of engine runs and their cancellation.
- `AudioGateway.dfy`: the frame loop of one audio connection: windows, clock, duplicates, flush.
- `TranscriptLoop.dfy`, `Trigger.dfy`: what a recognised window does to the transcript, the
  character counter and the automatic runs; removal of repeated text.
- `Decisions.dfy`: version chains of decisions. `StatePatch.dfy`: merging an engine answer.
- `EditDistance.dfy`, `Glossary.dfy`, `ContextWindow.dfy`, `KnowledgeSearch.dfy`,
  `Resampler.dfy`: algorithms proved against independent definitions.
- `MeetingLife.dfy`, `RunAdmission.dfy`: the meeting state machine and the admission of engine runs,
  with the check and the commit of every request as separate steps that interleave.
  `Lifecycle.dfy`: the handlers themselves, and recovery after a restart.
- `Prelude.dfy`: Option, Result, Min, Max and StripLeft.

A protocol is a state with a set of steps; `Exec`, `ExecFrom`, `Replay`, `Serve`, `Play` and
`PatchedAll` give the state after a whole run, and the theorems quantify over all runs. Where a
promise fails, a `Config` says which gap is open, and an "exactly" theorem says for which
configurations the promise holds. Beside what no run may do, each protocol says what can always still
be done: a released lease can be granted, an open transaction commit, an invalid answer be repaired, a
waiting call be answered. Code that updates fields is a class or a method with a loop, each
tied by its `ensures` to the function the theorems are about.

Environment as parameters: recognition results, the CLI processes, difflib's ratio, per-character
case folding and white space, database answers to a limited query, the clock and new identifiers.

## What the proofs found

- `emit` is free of deadlock for every interleaving exactly when no transaction emits twice, or emits
  with a row already updated (`DeadlockFreeExactly`). The audio gateway's transactions emit several times
  (`backend/app/api/meetings.py:1302-1389`). The conversion of a suggestion updates its row before its
  one emit (`backend/app/api/meetings.py:668-678`), while accepting it updates the same row inside `emit`
  (`backend/app/api/meetings.py:599-608`): `RowWitness`. Either way two tasks of one process wait for
  each other, and PostgreSQL sees only half of the circle.
- The lease protects a meeting exactly while a body spends less than 60 seconds outside its CLI
  calls (`ExclusionExactly`); the margin of 120 seconds minus the repair limit leaves no more.
- `emit` sends a number to the clients before its transaction commits: clients see every meeting's
  numbers strictly increasing exactly when no transaction is rolled back after it has sent one
  (`PublishedOnceExactly`). The audio gateway does so when a frame is both out of order and a
  duplicate: the gap is reported, and the transaction left without a commit
  (`backend/app/api/meetings.py:1221-1241`).
- At most one run per meeting is in flight exactly when admissions do not overlap between count and
  commit and engine jobs do not overwrite a cancelled row (`OneInFlightExactly`); the code ensures
  neither. Likewise an ended meeting stays ended, and its times fit, exactly when the transitions of one
  meeting do not overlap (`EndIsFinalExactly`, `TimesFitExactly`).
- A cancelled run can still apply its state patch exactly when it is past its last check
  (`CancelledPatchesExactly`), which `LateCancelWitness` reaches; the request was answered with "cancelled".
- The characters a disconnect flush appends are never counted for the trigger (`CounterIsTextLength`,
  `UncountedWitness`).
- Audio behind the last window is lost when the connection is closed for a bad frame or the meeting
  was found deleted (`UnflushedLosesTheRest`, `LostAudioWitness`).
- `update_decision` fails with an unhandled validation error exactly for three statuses that its own
  schema and `create_decision` accept (`UpdateFailsExactly`).
- Rows are superseded exactly when they have a successor if and only if no accepted `create_decision`
  asked for the status "superseded" (`RegularExactly`); one request is enough (`OrphanWitness`).
- Re-applying an engine answer repeats its whitespace-only items (`PatchTwice`).
- A glossary row whose target contains one of its sources is found again on every pass
  (`ContainingTargetNeverSettles`). Targets no source can lie in or straddle settle after one pass
  (`ApartGlossarySettles`); for a row with one source not longer than its target, `SettlesExactly` says
  exactly which pairs do.
- The search page is always the newest of all matches exactly when the matches are robust against each
  query withholding what it can (`AlwaysNewestExactly`); only a cut document or transcript query can
  spoil it (`SearchIsNewest`, `CutSearchLosesRows`). A match is cut off in its excerpt exactly when it is
  longer than 260 less the context in front of it (`MatchIsShownExactly`).
- A benchmark reports an error rate of 0.0 exactly up to one wrong word in 20,000 (`RoundingIsTight`).

## Model

| member | source | states |
|---|---|---|
| WorkerLock.SameProcessExclusion | backend/app/workers/engine_api.py:95-99 | in every reachable state two bodies of one meeting in one process are the same body, with or without Redis, whatever the timing |
| WorkerLock.BodyAge | backend/app/workers/engine_api.py:228-253 | a body is at most T + min(60 s, T) plus its slack old |
| WorkerLock.BodyAgeIsReached | backend/app/workers/engine_api.py:228-253 | for every timeout a run reaches exactly that age |
| WorkerLock.ClusterExclusion | backend/app/workers/engine_api.py:95-127 | with slack below 60 s, bodies of one meeting never overlap across processes and each still owns its live lease |
| WorkerLock.ExclusionExactly | backend/app/workers/engine_api.py:106 | over all runs the lease excludes overlap if and only if the slack is below 60 s |
| WorkerLock.OverrunWitness | backend/app/workers/engine_api.py:246-253 | for every timeout from 60 s a run in which a body that used both CLI limits and 60 s more overlaps another |
| WorkerLock.LiveLeaseIsFenced | backend/app/workers/engine_api.py:116-127 | only its owner's release removes a live lease; late releases, lost replies and crashes do not |
| WorkerLock.ReleaseFreesMeeting | backend/app/workers/engine_api.py:116-127 | with slack below 60 s, in every reachable state: after a release the meeting has no lease, so every call polling for it may be granted it at once, and every call of the process waiting for the asyncio lock may take that |
| WorkerLock.ReleasedOwnsNothing | backend/app/workers/engine_api.py:116-127 | whatever the timing, a call that has released owns no live lease |
| WorkerLock.PollingEnds | backend/app/workers/engine_api.py:104-110 | polling lasts ten seconds; then the call is granted the lease, for its timeout and 120 s, or refused with a 409, exactly one of the two |
| WorkerLock.EveryCallCanBeAnswered | backend/app/workers/engine_api.py:95-127 | from every reachable state every unfinished call can still get to its body and be answered |
| WorkerLock.NothingLeaks | backend/app/workers/engine_api.py:95-127 | once all calls ended no local lock is held, and no lease lives longer than 1020 s |
| WorkerLock.RunKeepsInvariants | backend/app/workers/engine_api.py:95-127 | every run keeps lock ownership, lease ownership and the time accounting of every body |
| EventSequencer.SequencesAreDense | backend/app/services/events.py:52-82 | committed numbers of a meeting are 1..n, uncommitted ones n+1.. and all of one advisory-lock holder, in every reachable state |
| EventSequencer.InsertIsUnique | backend/app/services/events.py:61-73 | the number `emit` picks is used by no committed or uncommitted row visible to anyone |
| EventSequencer.CommitShowsAll | backend/app/api/meetings.py:1260-1267 | outside `emit` a transaction can always commit, and then the committed numbers of every meeting are those it saw |
| EventSequencer.UnblockedEmitCommits | backend/app/services/events.py:55-84 | from every reachable state a transaction inside `emit` that nobody blocks, waiting to flush or not, gets by its own steps to its commit: its event takes the next number, the clients are sent it, its locks are free |
| EventSequencer.IdleEmitCommits | backend/app/services/events.py:52-84 | the same for a transaction about to emit that finds the meeting's locks free |
| EventSequencer.EmitAndCommit | backend/app/services/events.py:52-84 | so a new transaction adds exactly one committed event, with the next number, and leaves all else as it was |
| EventSequencer.NumbersAreReached | backend/app/services/events.py:61-84 | for every n a run reaches the committed numbers 1, 2, ..., n |
| EventSequencer.RaiseOnlyRollsBack | backend/app/services/events.py:55-73 | an exception can strike at any wait and inside `emit`; it frees the asyncio lock and leaves only a rollback |
| EventSequencer.EndedHoldNothing | backend/app/services/events.py:55-64 | in every reachable state all locks belong to transactions that have not ended |
| EventSequencer.WaitsExactly | backend/app/services/events.py:55-64 | in every reachable state a waiting transaction gets its lock next if and only if no other one holds it |
| EventSequencer.RunKeepsInvariants | backend/app/services/events.py:52-82 | every run keeps the lock tables, the numbering, and who may hold an advisory lock or an updated row where |
| EventSequencer.DatabaseWaitsEnd | backend/app/services/events.py:55-64 | waits inside the database end at a transaction that waits for an asyncio lock with a lock of the database in hand |
| EventSequencer.DeadlockNeedsHolder | backend/app/services/events.py:55-64 | every deadlock contains a transaction at the door of `emit` that is at its second emit, or has updated a row |
| EventSequencer.SecondEmitWitness | backend/app/api/meetings.py:1302-1379 | two transactions of one process, one emitting twice, reach a circular wait |
| EventSequencer.RowWitness | backend/app/api/meetings.py:668-678 | two transactions that emit once each, one with a row already updated, reach a circular wait |
| EventSequencer.DeadlockFreeExactly | backend/app/services/events.py:55-64 | no run deadlocks if and only if transactions emit at most once and not with a row already updated |
| EventSequencer.DeadlockLasts | backend/app/services/events.py:55-60 | a circular wait survives every step but an exception in one of its transactions |
| EventSequencer.RunKeepsPublished | backend/app/services/events.py:83 | unless a transaction that has sent one is rolled back, every run publishes numbers strictly increasing and never beyond the events written |
| EventSequencer.RepublishWitness | backend/app/services/events.py:83 | a rolled-back number is published twice |
| EventSequencer.PublishedOnceExactly | backend/app/services/events.py:61-84 | clients are sent strictly increasing numbers in every reachable state if and only if no transaction is rolled back after it has sent one |
| EngineJobs.OneRunPerMeeting | backend/app/services/engine.py:380-387 | two runs of one meeting inside `_execute` are the same run |
| EngineJobs.PatchNeedsValidAnswer | backend/app/services/engine.py:455-486 | over every run from the start: who has patched had a valid answer, of the only call, or of exactly one more call after an invalid first answer; no call of it failed, and no run makes three |
| EngineJobs.FirstAnswerTookOneCall | backend/app/services/engine.py:455-465 | the first validation is that of the run's only call so far |
| EngineJobs.PatchedByItsStep | backend/app/services/engine.py:485-486 | a run has patched exactly when its history holds the step that applies its patch |
| EngineJobs.InvalidAnswerIsRepaired | backend/app/services/engine.py:462-477 | in every reachable state an invalid first answer leaves a run able to patch, exactly unless it is cancelled |
| EngineJobs.PatchesExactly | backend/app/services/engine.py:380-486 | in every reachable state a run that has not patched can still do so if and only if it is past its last check, or is not cancelled and no call of it has failed |
| EngineJobs.EnqueuedCanPatch | backend/app/services/engine.py:287-292 | until shutdown every new run is taken in and can get as far as its patch |
| EngineJobs.CancelRecordsExactly | backend/app/services/engine.py:356-378 | until shutdown a cancellation is recorded in every reachable state exactly for runs that are not over |
| EngineJobs.ShutdownCompletes | backend/app/services/engine.py:301-329 | from every state a shutdown can be completed: every run and its callback end, all tables are empty |
| EngineJobs.BookkeepingNeverLeaks | backend/app/services/engine.py:287-299 | cancelled ids are tracked ids, and all tables are empty once every callback has run |
| EngineJobs.CancelledEarlyNeverExecutes | backend/app/services/engine.py:383-387 | a run recorded as cancelled before its lock was granted or its row read never executes, in any continuation |
| EngineJobs.CancelledInTimeNeverPatches | backend/app/services/engine.py:443-486 | a run recorded as cancelled before its last CLI call returned never applies a state patch, in any continuation |
| EngineJobs.CancelledLateMayPatch | backend/app/services/engine.py:460-486 | from validating or applying on, a continuation that patches exists, cancelled or not |
| EngineJobs.LateCancelWitness | backend/app/services/engine.py:373-377 | a run from the start that is cancelled while its answer is being validated |
| EngineJobs.CancelledPatchesExactly | backend/app/services/engine.py:458-486 | in every reachable state, a cancelled run that has not patched can still do so if and only if it is past its last check |
| EngineJobs.FateIsSealed | backend/app/services/engine.py:380-486 | never started and never patched are kept by every continuation |
| EngineJobs.RunKeepsInvariants | backend/app/services/engine.py:280-387 | every run keeps lock ownership and the agreement of the four tables |
| EngineJobs.EngineManager.ReachableIsValid | backend/app/services/engine.py:280-285 | in every reachable state of the system the manager's tables are consistent |
| EngineJobs.EngineManager.Enqueue | backend/app/services/engine.py:287-292 | the run is tracked, and the tables keep showing the system's state |
| EngineJobs.EngineManager.Discard | backend/app/services/engine.py:294-297 | nothing of the run is left in any table, and nothing else is lost |
| EngineJobs.EngineManager.Cancel | backend/app/services/engine.py:356-378 | accepts exactly runs with a live process or an unfinished task, and records exactly those |
| EngineJobs.EngineManager.EntersExecute | backend/app/services/engine.py:384-387 | `_execute` is entered exactly when the system's step starts the run; never for a recorded cancellation |
| EngineJobs.EngineManager.MayUseAnswer | backend/app/services/engine.py:413-419 | a refused answer ends the run, a valid one takes it past its last check; never for a recorded cancellation |
| EngineJobs.EngineManager.Clear | backend/app/services/engine.py:326-329 | shutdown leaves all tables empty |
| AudioGateway.AudioSocket | backend/app/api/meetings.py:1195-1524 | the handler's loop computes the session the theorems are about |
| AudioGateway.TakeAudio | backend/app/api/meetings.py:1230-1270 | one accepted frame: the chunk, the buffer, and the window handed over when it is full |
| AudioGateway.AdvanceKeepsClock | backend/app/api/meetings.py:1510-1514 | a window advance leaves the gateway's clock unchanged and keeps 16,000 bytes |
| AudioGateway.ServeKeepsInvariants | backend/app/api/meetings.py:1210-1514 | every frame sequence keeps the buffer a suffix of the accepted audio, windows chained, and times within bounds |
| AudioGateway.OpenAndKnownExactly | backend/app/api/meetings.py:1210-1220 | the connection is open exactly while all frames pass the length checks; the meeting is known exactly when the last of these found it |
| AudioGateway.NewAudioIsAccepted | backend/app/api/meetings.py:1210-1269 | accepted is exactly the audio of the frames before the first bad one that carry, for an active meeting, a number neither stored nor carried before; each is recorded with its size |
| AudioGateway.StoredIsRecorded | backend/app/api/meetings.py:1232-1259 | stored chunks are never overwritten, and new ones are those recorded |
| AudioGateway.EveryByteIsHeard | backend/app/api/meetings.py:1515-1524 | for inputs whose frames all pass the length checks, the last one finding the meeting: after the disconnect all audio of the new frames was handed to recognition if and only if it is empty or longer than 16,000 bytes |
| AudioGateway.UnflushedLosesTheRest | backend/app/api/meetings.py:1212-1220 | for all other inputs there is no flush, and everything was heard exactly when no audio followed the last window |
| AudioGateway.LostAudioWitness | backend/app/api/meetings.py:1212-1214 | a first chunk of any size below two seconds is lost to a frame without a header |
| AudioGateway.AtMostTwice | backend/app/api/meetings.py:1510-1514 | no byte lies in three windows |
| AudioGateway.WindowsOverlapByTail | backend/app/api/meetings.py:1510-1514 | windows are stretches of the accepted audio; each starts 16,000 bytes before the previous one ends, with the same content there |
| AudioGateway.TimelineIsTight | backend/app/api/meetings.py:1231-1256 | chunks never overlap, gaps are at most 1 ms, window starts (the flush included) lag at most 31 bytes of audio per window, the buffer is below 64,000 bytes |
| AudioGateway.ReplayAddsNothing | backend/app/api/meetings.py:1232-1241 | a stored sequence number never adds audio, chunks or windows again |
| AudioGateway.NoGapExactly | backend/app/api/meetings.py:1221-1229 | no gap is reported exactly when the frames that pass the checks are numbered 0, 1, 2, ... |
| AudioGateway.NoGapMissesNothing | backend/app/api/meetings.py:1221-1259 | without stored chunks, a connection without gaps has recorded every such frame |
| Trigger.MergeOverlap | backend/app/services/trigger.py:90-96 | removes the largest overlap of at least 4 characters and the white space behind it; returns its input exactly when there is none |
| Trigger.StripLeftIsSuffix | backend/app/services/trigger.py:95 | stripping removes leading white space and nothing else |
| Trigger.RepeatedTailIsDropped | backend/app/services/trigger.py:90-96 | a text that starts by repeating the transcript's tail contributes at most a suffix of what is new |
| Trigger.FirstDecides | backend/app/services/trigger.py:32-75 | of all decisions that apply, the first in the order of the code is taken |
| Trigger.InvokesExactly | backend/app/services/trigger.py:32-75 | the engine runs if and only if asked to, or nothing keeps it and the text or its length calls for it |
| TranscriptLoop.Gateway.AppendResults | backend/app/api/meetings.py:1329-1381 | the loop over results appends numbered, cleaned, non-empty segments and counts their characters |
| TranscriptLoop.Gateway.HearWindow | backend/app/api/meetings.py:1337-1443 | one window's whole effect on transcript, counter, stamp and queue |
| TranscriptLoop.Gateway.FlushTail | backend/app/api/meetings.py:1538-1581 | the disconnect flush appends cleaned segments without counting them |
| TranscriptLoop.AppendsCleaned | backend/app/api/meetings.py:1338-1381 | the appended texts are the results in order, each cleaned against all text before it, without empty ones |
| TranscriptLoop.WindowQueuesExactly | backend/app/api/meetings.py:1382-1443 | a window queues one run, stamped and with the counter reset, if and only if nothing keeps it and its text or the counted characters call for one; otherwise it counts its characters |
| TranscriptLoop.JoinHoldsAll | backend/app/api/meetings.py:1392 | the text the trigger reads holds every recognised text of the window |
| TranscriptLoop.CounterIsTextLength | backend/app/api/meetings.py:1382-1443 | over any windows and flushes segments are numbered 1, 2, 3, ..., and the counter is the length of the text appended since the last automatic run if and only if no flush appended any since |
| TranscriptLoop.UncountedWitness | backend/app/api/meetings.py:1555-1581 | what a flush appends to an empty transcript leaves the counter at 0 |
| TranscriptLoop.RunsKeepTheirDistance | backend/app/services/trigger.py:45-63 | any two automatic runs are stamped at least the cooldown in force for the later one apart |
| Decisions.DecisionTable.CreateDecision | backend/app/api/work_items.py:98-112 | the table and the error after a create request; an accepted one's row says what was written |
| Decisions.DecisionTable.SupersedeRow | backend/app/api/work_items.py:123-143 | refuses superseded rows and foreign evidence, otherwise inserts the replacement, which says what was written, and links it |
| Decisions.DecisionTable.SupersedeDecision | backend/app/api/work_items.py:184-188 | the table and the error after a supersede request; likewise |
| Decisions.DecisionTable.UpdateDecision | backend/app/api/work_items.py:146-157 | the table and the error after an update request; likewise |
| Decisions.DecisionTable.ConfirmDecision | backend/app/api/work_items.py:160-169 | the table and the error after a confirm request |
| Decisions.DecisionTable.RejectDecision | backend/app/api/work_items.py:172-181 | the table and the error after a reject request |
| Decisions.RequestSays | backend/app/api/work_items.py:53-188 | exactly the acceptable requests are accepted, a refused one changes nothing; the inserted row carries the written title, description, owner, confidence and evidence, with the description or else the title as content, and the rows it is about get their status |
| Decisions.RowsSayWhatWasWritten | backend/app/api/work_items.py:53-143 | after every history each row says, field by field, what the request that inserted it wrote |
| Decisions.StatusIsLastGiven | backend/app/api/work_items.py:98-188 | after every history a row has the status the last accepted request about it gave it: the written one until confirmed, rejected or superseded |
| Decisions.HistoryKeepsChains | backend/app/api/work_items.py:98-188 | after every history the links are mutually inverse, one version apart, in one meeting, and a row with a successor is superseded |
| Decisions.WalkBack | backend/app/api/work_items.py:129-139 | k links back from version v lead to version v - k, reaching a root exactly at version 1 |
| Decisions.SameRootSameLatest | backend/app/api/work_items.py:138-139 | two rows share a root exactly when they share a newest version |
| Decisions.OneCurrentPerChain | backend/app/api/work_items.py:123-143 | chains are disjoint, with one row per version and exactly one current row |
| Decisions.HistoryIsImmutable | backend/app/api/work_items.py:98-188 | later requests never remove a row, change its content, or revive a superseded one |
| Decisions.OrphansAreCreated | backend/app/schemas/knowledge.py:10-18 | a superseded row without a successor was created with that status |
| Decisions.RegularExactly | backend/app/api/work_items.py:98-188 | after every history rows are superseded exactly when they have a successor, if and only if no accepted create request asked for "superseded" |
| Decisions.OrphanWitness | backend/app/schemas/knowledge.py:10-18 | one create request makes a superseded row without a successor |
| Decisions.UpdateFailsExactly | backend/app/api/work_items.py:146-157 | an update within its meeting raises exactly for the three statuses the inner schema refuses, all of which create accepts |
| Decisions.EvidenceStaysHome | backend/app/api/work_items.py:34-50 | evidence of every version belongs to the decision's meeting |
| StatePatch.MeetingRecord.Merge | backend/app/services/engine.py:667-681 | the greedy loop over one group's additions |
| StatePatch.MeetingRecord.MergeGroups | backend/app/services/engine.py:657-682 | all four groups, tables and lists |
| StatePatch.MeetingRecord.PatchBlob | backend/app/services/engine.py:652-717 | topic, summary, list fields, run time and version of the state blob |
| StatePatch.MeetingRecord.TranslateSegments | backend/app/services/engine.py:647-651 | the loop over translations |
| StatePatch.MeetingRecord.AddMemory | backend/app/services/engine.py:694-714 | the loop over project memory, titles included |
| StatePatch.MeetingRecord.ApplyStatePatch | backend/app/services/engine.py:631-728 | the whole record after a patch |
| StatePatch.AcceptedIsNovel | backend/app/services/engine.py:669-681 | no accepted item is similar to any earlier row or addition |
| StatePatch.RejectedHasReason | backend/app/services/engine.py:670 | a rejected non-empty item is similar to something present |
| StatePatch.NormalizeKeepsVisible | backend/app/services/trigger.py:79-80 | comparison keeps every character that is no white space, lower-cased, in order, and nothing else |
| StatePatch.SimilarExactly | backend/app/services/trigger.py:82-87 | items are similar exactly when both show something and what they show is equal or close |
| StatePatch.ReapplyTakesOnlyBlank | backend/app/services/engine.py:669-681 | offered again, exactly the whitespace-only items are taken |
| StatePatch.PatchTwice | backend/app/services/engine.py:631-728 | applying a patch again adds only its whitespace-only items and leaves all list fields alone |
| StatePatch.UniqueKeepsFirst | backend/app/services/engine.py:683-685 | `dict.fromkeys` keeps each value once, in order of first occurrence |
| StatePatch.RowsOnlyGrow | backend/app/services/engine.py:663-682 | over any patches rows are only appended, each dissimilar to all before it |
| StatePatch.MemoryOnlyGrows | backend/app/services/engine.py:694-714 | the same for project memory, each new row titled by its first 300 characters; only meetings of a project have one |
| StatePatch.TranslationsStayHome | backend/app/services/engine.py:647-651 | a segment of the meeting gets its last translation, respelled; no other segment and no text changes |
| StatePatch.OtherSegmentsStay | backend/app/services/engine.py:647-651 | over any patches segments of other meetings never change |
| StatePatch.ListsStayDistinct | backend/app/services/engine.py:682-693 | list fields are duplicate-free and keep their old order |
| StatePatch.ListsGainExactly | backend/app/services/engine.py:682-693 | lists gain exactly the rows added to their tables, or what the patch names |
| StatePatch.BlobSaysLatest | backend/app/services/engine.py:654-727 | over any patches summary and topic are the last ones offered, unless the user has set the topic; run time and newest snapshot follow the last patch |
| StatePatch.UserTopicSurvives | backend/app/services/engine.py:654-687 | a topic set by the user survives any patches |
| StatePatch.VersionsAreConsecutive | backend/app/services/engine.py:715-727 | versions rise by one per patch, with one snapshot each |
| EditDistance.NextRow | scripts/benchmark_stt.py:47-57 | the inner loop turns one row of the table into the next |
| EditDistance.WordErrorRate | scripts/benchmark_stt.py:42-58 | none for a reference without words, else the least edit cost per reference word, rounded to four decimals |
| EditDistance.WordsAreRuns | scripts/benchmark_stt.py:43 | splitting keeps everything but white space, in solid words that start where runs start |
| EditDistance.RoundingIsTight | scripts/benchmark_stt.py:58 | the rounded rate is at most half a ten-thousandth off, and 0 exactly up to one error in 20,000 words |
| EditDistance.TableIsDistance | scripts/benchmark_stt.py:46-57 | the table's last entry is the unique least cost of any edit script |
| EditDistance.DistanceIsSymmetric | scripts/benchmark_stt.py:46-57 | symmetry |
| EditDistance.DistanceIsTriangular | scripts/benchmark_stt.py:46-57 | triangle inequality |
| EditDistance.DistanceBounds | scripts/benchmark_stt.py:46-57 | between the difference of the lengths and the longer length; 0 exactly for equal lists |
| Glossary.ReplacementIsScan | backend/app/services/glossary.py:6-15 | the regular expression's replacement is the left-to-right scan taking the longest source at each position |
| Glossary.ScanSpellsText | backend/app/services/glossary.py:15 | the scan's pieces spell the text: everything unmatched is kept in order |
| Glossary.OrderIsIrrelevant | backend/app/services/glossary.py:7-11 | the iteration order of the source set does not matter |
| Glossary.WholeTextIsReplaced | backend/app/services/glossary.py:6-15 | a text that is one of the sources, case aside, becomes the target whatever other sources there are |
| Glossary.UnmatchedTextIsKept | backend/app/services/glossary.py:12-15 | a text without sources is unchanged |
| Glossary.ApartTargetSettles | backend/app/services/glossary.py:6-15 | when no source looked for can lie in the target or straddle its ends, none is left and a second pass changes nothing |
| Glossary.DisjointIsApart | backend/app/services/glossary.py:6-15 | a target sharing no folded character with a source is such a target |
| Glossary.ApartGlossarySettles | backend/app/services/glossary.py:18-47 | the same for a whole glossary, rows without a preferred spelling included |
| Glossary.FixedExactly | backend/app/services/glossary.py:6-15 | when no source looked for is longer than the target, a pass changes nothing exactly on texts without any |
| Glossary.ContainingTargetNeverSettles | backend/app/services/glossary.py:6-15 | for such a row whose target contains one of its sources, a second pass changes nothing exactly on texts without any |
| Glossary.SettlesExactly | backend/app/services/glossary.py:6-15 | a row with one such source settles after one pass on every text if and only if the source neither starts inside the target nor can be kept in front of one it reaches into |
| Glossary.NormalizeTranscript | backend/app/services/glossary.py:18-29 | the rows' rules are applied one after the other |
| Glossary.NormalizeTranslation | backend/app/services/glossary.py:32-47 | the rows' translation rules are applied one after the other |
| Glossary.StripTrims | backend/app/services/glossary.py:22-24 | names are compared and inserted without white space at their ends |
| Glossary.AliasIsRespelled | backend/app/services/glossary.py:21-28 | a transcript that is a row's term or alias becomes the row's preferred spelling, or else its term |
| Glossary.NameIsTranslated | backend/app/services/glossary.py:35-46 | a translation that is one of a row's names becomes the row's translation; a row not to be translated turns its translation back into its spelling |
| ContextWindow.BuildTranscript | backend/app/services/engine.py:74-98 | sends the longest suffix within 12,000 characters of source text, or the newest row alone if that is longer, in order |
| ContextWindow.WindowIsUnique | backend/app/services/engine.py:76-78 | that description determines the suffix |
| ContextWindow.SentAsIs | backend/app/services/engine.py:74-98 | each row sent names itself and shows the text its mode calls for, and the newest row is always sent |
| ContextWindow.ScoreGate | backend/app/schemas/meeting.py:134-141 | a score above 0.75 means the question signal and at most one other signal missing |
| ContextWindow.EvidenceIsInWindow | backend/app/services/engine.py:478-515 | an answer to the request built from any rows is rejected exactly when it names a row outside their window; otherwise its suggestion is stored, with its evidence, exactly when it is new, of confidence 0.65 or more, and raises the question signal and all others but one |
| KnowledgeSearch.SearchKnowledge | backend/app/api/knowledge.py:113-255 | gathers the answers of the wanted sources in order, sorts and cuts them |
| KnowledgeSearch.SelectsExactly | backend/app/api/knowledge.py:126-226 | a row is selected exactly when it meets every filter that is set and that its source has a column for |
| KnowledgeSearch.MatchingExactly | backend/app/api/knowledge.py:126-226 | a query matches exactly the selected rows of its table, each as often as it is there |
| KnowledgeSearch.WantedExactly | backend/app/api/knowledge.py:113-124 | one source type asks exactly its source, none asks all |
| KnowledgeSearch.SortedIsStableSort | backend/app/api/knowledge.py:254 | the sort is a stable permutation with falling keys |
| KnowledgeSearch.TopAnswers | backend/app/api/knowledge.py:138-142 | the top of an order is a possible answer of the query with that order |
| KnowledgeSearch.PageIsNewestExactly | backend/app/api/knowledge.py:113-255 | the page is the newest of all matches exactly when of the rows of every age as many were gathered as there are, or the limit |
| KnowledgeSearch.WorstIsLeast | backend/app/api/knowledge.py:138-226 | no answer of a limited query holds fewer rows of an age than the one that prefers older rows among equals |
| KnowledgeSearch.AlwaysNewestExactly | backend/app/api/knowledge.py:113-255 | whatever is answered the page is the newest of all matches, if and only if the matches are robust: a condition on the matches alone |
| KnowledgeSearch.GlobalTop | backend/app/api/knowledge.py:138-255 | it is, up to ties, when every query is ordered by creation or not cut |
| KnowledgeSearch.SearchIsNewest | backend/app/api/knowledge.py:113-255 | for the eight sources with their filters and orders, it is unless the document or the transcript query was cut |
| KnowledgeSearch.CutSearchLosesRows | backend/app/api/knowledge.py:138-201 | the search for documents, or for transcripts, can lose the newest row once its query is cut |
| KnowledgeSearch.MatchIsShownExactly | backend/app/api/knowledge.py:30-35 | a match is shown whole exactly when it fits in 260 characters behind at most 86 of context |
| KnowledgeSearch.MarkersAreHonest | backend/app/api/knowledge.py:35 | an excerpt is marked exactly on the sides where text is cut |
| Resampler.WindowInBounds | frontend/public/pcm-processor.js:11-12 | for every positive ratio no window is empty or out of bounds |
| Resampler.WindowsTile | frontend/public/pcm-processor.js:11-12 | for ratios of at least 1 the windows partition a prefix of the input |
| Resampler.UnreadTailIsShort | frontend/public/pcm-processor.js:6-12 | and leave fewer than ratio + 1 samples unread |
| Resampler.Process | frontend/public/pcm-processor.js:6-17 | each output is the quantised average of its window and fits 16 bits |
| Resampler.QuantizeIsTight | frontend/public/pcm-processor.js:15-16 | -1, 0 and 1 go to the ends and the middle of the range, order is kept, and every average in range is off by less than one step, towards zero |
| Resampler.NoClipping | frontend/src/hooks/useMicrophone.ts:20-25 | input within -1..1 is never clipped |
| MeetingLife.RunKeeps | backend/app/api/meetings.py:257-271 | with transitions of one meeting kept apart, every run keeps all times in order, ended meetings ended and start times fixed |
| MeetingLife.EdgesExactly | backend/app/api/meetings.py:276-311 | which status may follow which |
| MeetingLife.CommandTakesEffect | backend/app/api/meetings.py:257-271 | an allowed transition that no other one overlaps reaches its target and sets its times, and touches no other meeting |
| MeetingLife.EveryMeetingCanEnd | backend/app/api/meetings.py:303-313 | from every reachable state every meeting can be ended, at any later time |
| MeetingLife.OverlapWitness | backend/app/api/meetings.py:257-300 | a pause checked before and committed after an end revives the ended meeting |
| MeetingLife.TimesFitExactly | backend/app/api/meetings.py:263-267 | the start time is set exactly once draft is left, the end time exactly when ended and not before the start, in every reachable state, if and only if transitions do not overlap |
| MeetingLife.EndIsFinalExactly | backend/app/api/meetings.py:257-271 | from every reachable state on ended meetings never change and start times never move, if and only if transitions do not overlap |
| RunAdmission.CountsAgree | backend/app/api/meetings.py:1428-1439 | the audio loop's narrower list of statuses agrees with the one of `request_codex` in every reachable state |
| RunAdmission.AdmittedExactly | backend/app/api/meetings.py:444-453 | in every reachable state a request is admitted exactly when no run of its meeting is in flight |
| RunAdmission.InsertedIsInFlight | backend/app/api/meetings.py:482-497 | its run is inserted as queued, and the next count refuses |
| RunAdmission.QueuedCompletes | backend/app/services/engine.py:424-441 | a queued run can be executed to the end, and then blocks nobody |
| RunAdmission.CancelExactly | backend/app/api/meetings.py:523-536 | a cancel request cancels what it saw not yet started and what was stopped, and nothing else |
| RunAdmission.OverlapWitness | backend/app/api/meetings.py:444-497 | two requests that count before either inserts put two runs of a meeting in flight |
| RunAdmission.StaleWriteWitness | backend/app/services/engine.py:424-441 | so does an engine job that starts a run cancelled after it read the row |
| RunAdmission.RunKeeps | backend/app/api/meetings.py:444-497 | with both gaps closed every run keeps one run per meeting in flight, and none for a meeting whose count came out zero |
| RunAdmission.OneInFlightExactly | backend/app/api/meetings.py:444-497 | at most one run per meeting is in flight in every reachable state, if and only if both gaps are closed |
| Lifecycle.Database.Transition | backend/app/api/meetings.py:257-271 | refused without a trace, or the one row reaches the target, keeps its start and stays consistent |
| Lifecycle.Database.RequestCodex | backend/app/api/meetings.py:435-499 | on its own, conflicts exactly while a run is in flight and keeps at most one |
| Lifecycle.Database.EndMeeting | backend/app/api/meetings.py:303-324 | an allowed end always succeeds and leaves a run in flight, its summary or another |
| Lifecycle.Database.CancelCodexRun | backend/app/api/meetings.py:523-536 | cancels exactly what has not started or was stopped, reports just that, and changes no other run |
| Lifecycle.Database.Restart | backend/app/main.py:38-48 | from any state: nothing active, paused or in flight, times kept, everything else untouched |
| Lifecycle.RestartUnblocks | backend/app/main.py:38-48 | after a restart interrupted meetings can be started or ended, and the next count admits its request |

## Left out

- EngineJobs.CancelledInTimeNeverPatches: the local path only; runs executed by the remote CLI worker are cancelled by an HTTP call and not modelled.
- EngineJobs.RunKeepsInvariants: the manager's shutdown serves no new requests while it waits, and asyncio's queueing order among waiters is left open.
- WorkerLock.ClusterExclusion: the slack of a body is a parameter; the code does not bound it. The worker's process table and its cancel endpoint are left out.
- EventSequencer.SequencesAreDense: the PostgreSQL branch; on SQLite only the asyncio lock remains.
- EventSequencer.DeadlockFreeExactly: row locks are exclusive (the shared lock an event's foreign key takes on its meeting is left out); waits for a connection of the pool end with an exception.
- EventSequencer.PublishedOnceExactly: what is sent, in one log per meeting; a client sees the part of it sent by its own process, and slow clients are dropped.
- AudioGateway.ReplayAddsNothing: the deletion of a meeting's audio, which removes its stored chunks, is left out.
- AudioGateway.EveryByteIsHeard: one connection; several connections to one meeting share the table of chunks. Failures of the database or the socket inside the loop are left out.
- TranscriptLoop.CounterIsTextLength: the loop is the only writer of the state blob; concurrent writers and whether the ORM notices a mutated blob are left out.
- TranscriptLoop.RunsKeepTheirDistance: same single-writer hypothesis; the clock does not go back.
- StatePatch.MeetingRecord.ApplyStatePatch: a single writer is assumed, and rows carry their content alone.
- Decisions.HistoryKeepsChains: requests are atomic; two concurrent supersessions of one row are left out, and so is the deletion of meetings.
- Decisions.HistoryIsImmutable: the deletion of a project, which clears the project of its decisions, is left out.
- Glossary.SettlesExactly: rows with one source not longer than their target; a source longer than the target may hold it whole.
- EditDistance.WordErrorRate: the quotient is exact before it is rounded.
- Glossary.ReplacementIsScan: case folding maps single characters, so full Unicode folding (ß and ss) is left out.
- Trigger.MergeOverlap: lower-casing maps single characters, likewise.
- ContextWindow.ScoreGate: exact weights instead of floating point.
- KnowledgeSearch.SearchKnowledge: the titles and languages shown with a result.
- KnowledgeSearch.MatchIsShownExactly: starts from the cleaned text and the place of the match in it.
- Resampler.Process: exact arithmetic instead of floating point.
- RunAdmission.OneInFlightExactly: that a request names an existing meeting, and the engine's order of jobs of one meeting; the deletion of meetings is left out.
- MeetingLife.EndIsFinalExactly: one server process, whose restart ends all its requests; the deletion of meetings is left out.
- Lifecycle.Database.RequestCodex: one request on its own; interleavings are the subject of RunAdmission.
- Lifecycle.Database.Transition: one request on its own; interleavings are the subject of MeetingLife.
- Progress: that a step is possible is proved, not that it is taken; fairness among waiters is left out.
- Speech recognition, the CLI engines, difflib and text to speech: parameters.
- Authentication, origin checks, redaction, CRUD endpoints, analytics, WAV, PDF, VTT and SRT output, and the React pages: single-branch or presentational code.
