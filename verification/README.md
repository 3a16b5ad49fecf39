# Tsunagi, verified

Tsunagi forwards the SMS messages a phone receives to a server. The phone captures each message
into a local table, recovers what the broadcast missed by sweeping the platform inbox, and uploads
in batches; the server stores each message id once, wakes whoever is waiting for it, and lets it be
exported. What the project sets out to do is to lose no message and store none twice, to
keep back what arrives in a paused session, and to keep a phone off that an administrator has
turned off.

This is a Dafny model of the code that has to do that, with proofs that it does, the exact
conditions under which it does where that is not always, and concrete inputs where it fails.
`dafny verify dfyconfig.toml` checks everything.

## How it is organised

| file | what it models |
|---|---|
| `Identity.dfy` | the content-derived message id |
| `MessageTable.dfy` | the phone's table: one function per SQL statement, and the class that runs them in place |
| `UploadPass.dfy`, `Settlement.dfy` | the upload loop of a pass: its length, what it does to the queue, and the statements that settle an answer |
| `InboxSweep.dfy`, `RepeatedSweeps.dfy`, `SweepCatchUp.dfy`, `FirstSweep.dfy` | the sweep as a greedy matcher, what sweeping again does, how its watermark catches up, and what it reads of the inbox, the very first one included |
| `SyncEngine.dfy` | the engine as the phone runs it, every method proved against the modules above |
| `Ingest.dfy`, `Exchange.dfy`, `Wire.dfy` | the server's ingest path, and one upload call seen from both ends |
| `Delivery.dfy`, `EngineRuns.dfy` | phone, network and server as one stepped system, and the proof that the engine's passes are runs of it |
| `Confirmations.dfy`, `SecondSightings.dfy`, `StrayErrors.dfy` | in that system: messages confirmed but not stored, stored twice, or quarantined though acceptable |
| `HeldBack.dfy`, `HoldBackPass.dfy`, `PausedSessions.dfy` | messages withheld because they arrived while sync was paused: once withheld, in the pass that withholds them, and through pauses, resumes and passes that overlap |
| `Enrolment.dfy`, `OffSwitch.dfy` | single-use enrolment codes under races; the 401/403 off switch |
| `LongPoll.dfy`, `EventBus.dfy` | the long poll on bounded queues |
| `Export.dfy` | keyset-paged export under concurrent changes, and its JSON and CSV streams |
| `RateLimit.dfy` | the in-process rate limiter |
| `Multipart.dfy` | stitching the parts of a long SMS together |
| `Subscriptions.dfy` | matching an event against a stored webhook list |

Protocols whose difficulty is interleaving (`Delivery`, `PausedSessions`, `Enrolment`, `OffSwitch`,
`LongPoll`) are
state machines over their steps, and their theorems are about every legal run. Code that updates
state in place is a class or a method with a loop, tied by its postcondition to the function or
relation its theorems are about. Where SQL leaves an order open, the model leaves it open too.

## What the proofs turned up

These are places where the code does less than its comments suggest. Each is a lemma.

- Two passes can overlap, since the immediate and the periodic worker are separate unique works,
  and choosing a batch and marking it are separate statements. A message one pass holds back can
  then be released and uploaded by the other (`HeldBack.OverlappingPassesRelease`,
  `HeldBack.ChosenBatchReleases`), exactly when that other pass has it in hand
  (`HeldBack.ReleasableExactlyWhenCarried`).
- A pass reads the settings once. One that is running when the user pauses goes on uploading
  (`PausedSessions.RunningPassIgnoresPause`), and one that is applying an older window clears the
  newer one unapplied (`PausedSessions.RunningPassWipesWindow`). `PausedSessions.GoesUpExactlyWhen`
  says exactly when a message goes up.
- Only one exclusion window is remembered. A second paused session that ends before a pass runs
  replaces the first, whose messages then go up (`HeldBack.EarlierSessionApplied`).
- A window is gone after one pass. Messages that pass's sweep did not get to, because the inbox
  could not be read or the sweep was cut at 500 rows, are uploaded later
  (`HoldBackPass.UnreadableSweepLetsThrough`, `HoldBackPass.CutSweepLetsThrough`; the exact
  condition is `HoldBackPass.HeldBackExactlyWhen`).
- With a shared setup key, a phone whose device is switched off can come back under a new one, if
  a second pass had already found the phone unregistered
  (`OffSwitch.SecondRegistrationWalksBackIn`; exactly when, `OffSwitch.StoresExactlyWhen`). With a
  single-use code it cannot (`OffSwitch.CodePhoneStaysOff`).
- The server takes any id from any device. If another device has stored a message's id over other
  content, the phone's upload is answered duplicate and its row confirmed, though the message is
  not stored (`Delivery.ForeignIdSwallowsMessage`; exactly when,
  `Confirmations.ConfirmedWithoutContent`).
- One message can be stored twice. If broadcast and inbox report different times, the inbox copy
  is recognised only by the broadcast's row; once that is pruned, the next sweep of the overlap
  stores the copy, and the server, which knows only ids, creates it (`SecondSightings.StoredTwice`,
  `SecondSightings.StoredTwiceExactlyWhen`).
- A new message written just behind one already read can take that one's row in the next sweep, so
  that the old message is stored after all and the new one is not (`RepeatedSweeps.NewcomerDisplaces`,
  `RepeatedSweeps.NewcomerExactly`).
- A 400 or 404 from something between phone and server quarantines good messages for good
  (`StrayErrors.ProxyQuarantines`, `StrayErrors.QuarantinedOnlyByStrays`).
- A registration whose answer is lost has spent its code all the same, and the phone is left
  without a token for good (`OffSwitch.LostAnswerStrands`).
- The comments say a phone enrols again after a 401. It cannot: registering erased the key
  (`SyncEngine.UnregisteredForGood`).
- The sweep's exact-id branch does not consult the claimed set, so an earlier message can be
  swallowed by the row of a later one with the same text (`InboxSweep.EarlierResendIsSwallowed`,
  with the exact condition in `InboxSweep.KeepsExactlyWhen`).
- The watermark stalls for good when 500 inbox rows fall in one overlap
  (`SweepCatchUp.BurstStallsForever`, `SweepCatchUp.ProgressExactlyWhen`).
- `retry_after` is cut down to whole seconds, so waiting exactly that long need not reach the next
  window (`RateLimit.RetryFallsShort`, `RateLimit.RetryReachesExactlyWhen`).
- A burst of other events can fill a poller's queue and cost it its wake-up
  (`LongPoll.FloodLosesWakeUp`).

## Model

| member | source | states |
|---|---|---|
| Identity.Injective | app/src/main/java/com/vce/tsunagi/data/MessageIdentity.kt:24-29 | Two messages with NUL-free senders get the same id string if and only if they are the same message, whatever their bodies contain; the reason NUL was chosen as separator |
| Identity.NulSenderCollides | app/src/main/java/com/vce/tsunagi/data/MessageIdentity.kt:19-24 | The NUL-free hypothesis is needed: every message whose sender does hold a NUL shares its id with a different message |
| Identity.DecimalInjective | app/src/main/java/com/vce/tsunagi/data/MessageIdentity.kt:26-29 | The decimal rendering of the timestamp, sign included, loses nothing |
| Identity.DigitsRoundTrip | app/src/main/java/com/vce/tsunagi/data/MessageIdentity.kt:26-29 | Reading the rendered digits back gives the number, and no digit is a separator or a sign |
| MessageTable.BatchSize | app/src/main/java/com/vce/tsunagi/data/local/Daos.kt:72-80 | A pending batch is a set of distinct queued rows, as many as the limit allows, and says how many stay queued |
| MessageTable.OldestExists | app/src/main/java/com/vce/tsunagi/data/local/Daos.kt:61-80 | Whatever rows tie on their timestamp, an answer to the ordered, limited query exists, so the theorems about every legal answer are about something |
| MessageTable.EditsKeepContent | app/src/main/java/com/vce/tsunagi/data/local/Daos.kt:98-138 | No status update adds, drops or rewrites a message |
| MessageTable.MessageDao.Insert | app/src/main/java/com/vce/tsunagi/data/local/Daos.kt:41-42 | An id already stored keeps its row and status; the result says whether the row is new |
| MessageTable.MessageDao.MarkUploading | app/src/main/java/com/vce/tsunagi/data/local/Daos.kt:98-99 | The named rows leave the queue, so no other pass is offered them; they keep everything but their status, and no other row changes |
| MessageTable.MessageDao.MarkSynced | app/src/main/java/com/vce/tsunagi/data/local/Daos.kt:101-108 | The named rows leave the queue, confirmed at the given time and without an error; text and attempts stay, and no other row changes |
| MessageTable.MessageDao.MarkFailed | app/src/main/java/com/vce/tsunagi/data/local/Daos.kt:110-119 | Every named row that exists is in the queue afterwards, one more attempt behind it; nothing leaves the queue, and no other row changes |
| MessageTable.MessageDao.Quarantine | app/src/main/java/com/vce/tsunagi/data/local/Daos.kt:129-138 | The named rows leave the queue with the reason and one more attempt on record; no other row changes |
| MessageTable.MessageDao.ExcludeReceivedBetween | app/src/main/java/com/vce/tsunagi/data/local/Daos.kt:154-162 | Only queued rows of the window are held back, and the result counts the rows that left the queue |
| MessageTable.MessageDao.RequeueStranded | app/src/main/java/com/vce/tsunagi/data/local/Daos.kt:164-166 | No row is left in UPLOADING: the queue gains exactly the rows that were, and nothing but their status changes |
| MessageTable.MessageDao.DeleteSyncedBefore | app/src/main/java/com/vce/tsunagi/data/local/Daos.kt:173-179 | Only SYNCED rows with a confirmation time before the cutoff go; the result counts them |
| MessageTable.MessageDao.SelectOldest | app/src/main/java/com/vce/tsunagi/data/local/Daos.kt:67-78 | Of any set of rows, returns distinct ones in timestamp order, none of them newer than one left out |
| MessageTable.MessageDao.PendingBatch | app/src/main/java/com/vce/tsunagi/data/local/Daos.kt:72-80 | The oldest PENDING and FAILED rows, up to the limit |
| MessageTable.MessageDao.IdsNear | app/src/main/java/com/vce/tsunagi/data/local/Daos.kt:61-70 | Every stored row with this text received within the window, each once, oldest first |
| Ingest.IngestedContents | backend/app/repositories.py:113-140 | Storing a batch adds exactly its ids and leaves every row already there as it was |
| Ingest.FirstWriterWins | backend/app/repositories.py:113-140 | Of several entries under one new id, the first one is the content kept |
| Ingest.KnownBatchChangesNothing | backend/app/repositories.py:113-140 | A batch of ids that are all stored leaves the store unchanged |
| Ingest.ReplayIsHarmless | backend/app/services.py:368-406 | A batch sent any number of times stores what sending it once stores; every repeat answers duplicate or rejected and creates nothing |
| Ingest.VerdictsAddUp | backend/app/routers/messages.py:68-100 | accepted = created + duplicates + rejected for every batch, and the store gains exactly as many rows as are reported created |
| Ingest.ResponseIsExact | backend/app/routers/messages.py:77-100 | The response itself: accepted is the number of entries and the sum of the tallies, created the rows gained, rejected the unreadable entries; results come exactly when asked for, one for each entry in order, and each tally counts them |
| Ingest.CreatedAddsRow | backend/app/repositories.py:113-140 | An entry is called created exactly when it is the first readable one under an id that no row has |
| Ingest.StoresExactlyTheFirsts | backend/app/repositories.py:113-140 | A batch touches no row, and adds exactly one for each such entry, with the contents of that entry and the device that sent it |
| Ingest.NotRejectedMeansStored | backend/app/routers/messages.py:81-100 | Every entry that is not answered rejected is in the store when the answer is given |
| Ingest.MessageStore.ParseBatch | backend/app/services.py:341-366 | Splits a batch so that every entry lands on exactly one side, under its own position and in order, rejected exactly when it is unacceptable |
| Ingest.MessageStore.IngestBatch | backend/app/services.py:368-406 | Each flag says whether its id was new at that moment, and created counts the rows gained |
| Ingest.MessageStore.UploadBatch | backend/app/routers/messages.py:54-100 | Refuses, storing nothing, exactly when the batch is empty, over 500, or all-or-nothing with a bad entry; otherwise stores the first readable entry of each new id, and answers with the number of entries, the rows gained, the unreadable ones and the rest, and, if asked, with one verdict per entry that those tallies count |
| Ingest.MessageStore.MergeVerdicts | backend/app/routers/messages.py:84-92 | The merged, sorted results are one verdict per position 0..n-1, each the right one |
| Ingest.SortByIndex | backend/app/routers/messages.py:92 | The sorted list holds exactly the given results in increasing index order |
| Ingest.PlacedByIndex | backend/app/routers/messages.py:84-92 | Sorting results with distinct positions 0..n-1 puts each at its own position |
| Ingest.AllValid | backend/app/routers/messages.py:72-75 | Parsing loses no entry if and only if every entry is acceptable |
| UploadPass.TurnEffect | app/src/main/java/com/vce/tsunagi/data/TsunagiRepository.kt:254-306 | Row by row, what any answer whatever does to the table: refused rows are set aside, the rest of the batch takes one status, no other row and no content changes |
| UploadPass.TurnShrinksQueue | app/src/main/java/com/vce/tsunagi/data/TsunagiRepository.kt:254-306 | Every upload either ends the pass, narrows it to one message, or takes its whole batch off the queue |
| UploadPass.TurnSpendsBudget | app/src/main/java/com/vce/tsunagi/data/TsunagiRepository.kt:249-306 | The termination measure over queue length and batch width falls with every call that does not end the pass |
| UploadPass.CallsAreBounded | app/src/main/java/com/vce/tsunagi/data/TsunagiRepository.kt:249-306 | Against any server at all, a pass over n queued rows makes at most 2n-1 upload calls |
| UploadPass.BoundIsAttained | app/src/main/java/com/vce/tsunagi/data/TsunagiRepository.kt:277-304 | The bound is tight: a server that refuses every upload on its contents costs exactly 2n-1 calls |
| UploadPass.AcceptedPassLength | app/src/main/java/com/vce/tsunagi/data/TsunagiRepository.kt:249-306 | When every call is answered 200, a complete pass over n rows makes exactly the ceiling of n/100 calls |
| UploadPass.PassIsDeterminedByValidity | app/src/main/java/com/vce/tsunagi/data/TsunagiRepository.kt:249-306 | Whatever mixture of whole-batch refusals and per-message verdicts the server uses, a complete pass leaves valid queued rows SYNCED, invalid ones QUARANTINED, all others untouched, and reports as uploaded exactly the valid ones |
| UploadPass.IsolationRefinesVerdicts | app/src/main/java/com/vce/tsunagi/data/TsunagiRepository.kt:269-304 | An all-or-nothing server, isolated one message at a time, and a per-message server leave the same statuses and the same count; only the number of calls differs |
| UploadPass.ErrorByCode | app/src/main/java/com/vce/tsunagi/data/TsunagiRepository.kt:488-501 | Code by code: 401, 403, 408, 429 and anything outside 400..499 leave the whole batch FAILED and end the pass with that status; any other 4xx sets a lone message aside, and leaves a larger batch FAILED to go one at a time |
| UploadPass.EndsExactlyWhen | app/src/main/java/com/vce/tsunagi/data/TsunagiRepository.kt:266-276 | A pass ends early exactly at its last call, when that gets silence or one of those errors; no earlier call of it is answered so |
| UploadPass.QuarantinedExactlyWhen | app/src/main/java/com/vce/tsunagi/data/TsunagiRepository.kt:269-304 | In any pass, a row is QUARANTINED at the end if and only if it was before, a 200 rejects it by id or position, or it is uploaded alone and answered a 4xx other than 401, 403, 408 and 429 |
| UploadPass.RefusedNames | app/src/main/java/com/vce/tsunagi/data/TsunagiRepository.kt:354-361 | The ids the phone reads as refused are exactly those a rejected verdict names, by id or else by position |
| UploadPass.RefusalReasons | app/src/main/java/com/vce/tsunagi/data/TsunagiRepository.kt:354-361 | The reason recorded is the text of a verdict that rejects the message, or the stock one when it has none |
| UploadPass.AcceptedStamps | app/src/main/java/com/vce/tsunagi/data/TsunagiRepository.kt:363-372 | After a 200 what it does not refuse is counted, and stamped with the time it came and no error |
| UploadPass.QuarantineEachEffect | app/src/main/java/com/vce/tsunagi/data/TsunagiRepository.kt:366-370 | Setting the refused messages aside one after another moves exactly the named rows |
| UploadPass.WithoutEffect | app/src/main/java/com/vce/tsunagi/data/TsunagiRepository.kt:363 | What is marked stored is exactly what was sent and not refused |
| Settlement.PlanSettles | app/src/main/java/com/vce/tsunagi/data/TsunagiRepository.kt:260-305 | Run to the end undisturbed, the separate statements an answer leads to do what one turn of the upload loop is specified to do |
| Settlement.PlanNames | app/src/main/java/com/vce/tsunagi/data/TsunagiRepository.kt:341-372 | No statement names a row that was neither sent nor refused, and only rows sent and not refused are confirmed |
| Settlement.ExecutedEffect | app/src/main/java/com/vce/tsunagi/data/local/Daos.kt:98-138 | A statement gives the rows it names one status and leaves every other row alone |
| Exchange.Serve | backend/app/routers/messages.py:54-100 | One request served: the answer and the new store together, for old and new servers |
| Exchange.CalendarBounds | backend/app/schemas.py:160-164 | A timestamp reaches the server if and only if it falls in the years 1 to 9999 of the Gregorian calendar, in milliseconds from 1970 |
| Exchange.TakenExactly | backend/app/schemas.py:160-164 | A row the phone uploads is acceptable to the server if and only if its sender is not empty and its time is in that calendar |
| Exchange.RefusedAreUnacceptable | app/src/main/java/com/vce/tsunagi/data/TsunagiRepository.kt:354-363 | Against this server a rejected id always names a message of the batch, and the refused ones are exactly the unacceptable ones |
| Exchange.ServerJudges | backend/app/routers/messages.py:68-100 | In both modes the server judges each message on its own, which is what the upload theorems assume of it |
| Exchange.NotRefusedIsStored | app/src/main/java/com/vce/tsunagi/data/TsunagiRepository.kt:341-372 | What the phone marks SYNCED after a 200 is in the server store |
| InboxSweep.FirstUnclaimed | app/src/main/java/com/vce/tsunagi/data/TsunagiRepository.kt:176-186 | The fuzzy match is the oldest unclaimed row with the same text within ten minutes, and exists exactly when there is such a row |
| InboxSweep.ThreeWays | app/src/main/java/com/vce/tsunagi/data/TsunagiRepository.kt:161-191 | Every look recognises its candidate by id, matches it to one unclaimed row and claims that, or stores it as a fresh row; nothing else changes |
| InboxSweep.LookExactly | app/src/main/java/com/vce/tsunagi/data/TsunagiRepository.kt:165-191 | A missing candidate is stored exactly when every row of its sender and body received within 600000 ms of it has been claimed; else the table stays and the oldest of those left is claimed |
| InboxSweep.FarRowsDoNotCount | app/src/main/java/com/vce/tsunagi/data/TsunagiRepository.kt:552-553 | A row of another text, or more than 600000 ms away, never keeps a message from being stored, whatever else the sweep reads |
| InboxSweep.SweepOnlyAdds | app/src/main/java/com/vce/tsunagi/data/TsunagiRepository.kt:135-154 | A sweep adds exactly as many rows as it counts, all PENDING, all from its candidates, and touches no stored row |
| InboxSweep.WindowMatchesDistinct | app/src/main/java/com/vce/tsunagi/data/TsunagiRepository.kt:171-186 | No two candidates of one sweep are matched by window to the same row |
| InboxSweep.SecondLook | app/src/main/java/com/vce/tsunagi/data/TsunagiRepository.kt:161-191 | One candidate in two first-fit runs side by side: if the rows near it are still there and the second run has claimed none that the first leaves free, the second stores nothing and still claims none of those |
| InboxSweep.SweepIsIdempotent | app/src/main/java/com/vce/tsunagi/data/TsunagiRepository.kt:113-191 | Sweeping any part of what was swept again stores nothing, whatever rows were added and whatever became of their statuses, as long as no row that a re-read candidate could be taken for is gone; and when new messages follow the re-read ones, only they can be stored |
| InboxSweep.StoredExactlyWhen | app/src/main/java/com/vce/tsunagi/data/TsunagiRepository.kt:161-191 | For any list, repeats included: a message not on hand is stored if and only if, at one of its places, every row it could be taken for has been claimed by a candidate before it |
| InboxSweep.KeepsAllExactlyWhen | app/src/main/java/com/vce/tsunagi/data/TsunagiRepository.kt:131-191 | For any list, every message of it is on hand afterwards if and only if each missing one had such a place |
| RepeatedSweeps.NewcomerExactly | app/src/main/java/com/vce/tsunagi/data/TsunagiRepository.kt:113-191 | Exactly what a later sweep stores when it reads a newcomer between candidates seen before: the newcomer, if no row is free near it; else, if the row it takes was free, the candidate that is displaced in the end; or nothing |
| RepeatedSweeps.DisplacedExactly | app/src/main/java/com/vce/tsunagi/data/TsunagiRepository.kt:171-190 | Taking one free row from a sweep that would store nothing makes it store the last candidate of a chain of displacements, and nothing else |
| RepeatedSweeps.FewerClaims | app/src/main/java/com/vce/tsunagi/data/TsunagiRepository.kt:176-190 | A run that has claimed no row the other leaves free stores nothing where the other stores nothing |
| RepeatedSweeps.NewcomerDisplaces | app/src/main/java/com/vce/tsunagi/data/TsunagiRepository.kt:113-116 | A candidate seen before can be stored: a newcomer written just behind it takes the row it was matched to, and is not stored itself |
| RepeatedSweeps.RepeatIsStored | app/src/main/java/com/vce/tsunagi/data/TsunagiRepository.kt:176-190 | A message the inbox lists twice is stored at its second place, though its first was matched to another message's row |
| RepeatedSweeps.StoredAgainExactlyWhen | app/src/main/java/com/vce/tsunagi/data/TsunagiRepository.kt:116-191 | After a prune, a message swept alone is stored if and only if every row it could be taken for has been pruned |
| SecondSightings.StoredTwiceExactlyWhen | app/src/main/java/com/vce/tsunagi/data/local/Daos.kt:173-179 | A message is stored again after a prune, on the phone and then on the server, if and only if every row it could be taken for was pruned, it is acceptable, and its own id is not on the server |
| SecondSightings.CreatedExactlyWhen | backend/app/repositories.py:113-140 | The server knows a message only by its id: sent alone, it is created exactly when acceptable and its id is new |
| SecondSightings.OwnRowIsDuplicate | app/src/main/java/com/vce/tsunagi/data/local/Daos.kt:173-179 | A message whose own row was pruned is answered duplicate, unless it was cleared from the server |
| SecondSightings.StoredTwice | app/src/main/java/com/vce/tsunagi/data/TsunagiRepository.kt:116-308 | One message ends up stored twice: a run in which its broadcast is uploaded and confirmed, the sweep takes the inbox copy for it, the row is pruned, and the next sweep's copy is created under its own id |
| InboxSweep.KeepsExactlyWhen | app/src/main/java/com/vce/tsunagi/data/TsunagiRepository.kt:131-191 | Of distinct candidates every one is stored after the sweep if and only if each stored same-text row within the window of a missing candidate is the exact row of an earlier one |
| InboxSweep.KeepsEveryCandidate | app/src/main/java/com/vce/tsunagi/data/TsunagiRepository.kt:131-191 | Under that condition the table gains exactly the missing candidates and the sweep claims exactly its candidates |
| InboxSweep.EarlierResendIsSwallowed | app/src/main/java/com/vce/tsunagi/data/TsunagiRepository.kt:166-186 | The unconditional claim is false: with only the later of two same-text messages stored, the earlier one is swallowed, because the exact-id branch does not consult the claimed set |
| SweepCatchUp.WatermarkIsLatest | app/src/main/java/com/vce/tsunagi/data/TsunagiRepository.kt:141-145 | The latest store time the engine records is that of the last row of an ordered read |
| SweepCatchUp.FullSweepAdvances | app/src/main/java/com/vce/tsunagi/data/TsunagiRepository.kt:105-145 | With at most d rows in any overlap, a sweep that fills its limit examines at least 500-d rows beyond the watermark |
| SweepCatchUp.WatermarkNeverBack | app/src/main/java/com/vce/tsunagi/data/TsunagiRepository.kt:141-145 | The watermark never moves back while the row it names is still in the inbox |
| SweepCatchUp.ProgressExactlyWhen | app/src/main/java/com/vce/tsunagi/data/TsunagiRepository.kt:113-145 | A sweep reaches a row beyond the watermark if and only if fewer than 500 rows lie in the overlap behind it |
| SweepCatchUp.MissedRowGetsCloser | app/src/main/java/com/vce/tsunagi/sms/SmsInbox.kt:27-56 | A sweep that misses a row within its reach uses up at least 500-d of the rows ahead of it |
| SweepCatchUp.EveryRowIsExamined | app/src/main/java/com/vce/tsunagi/data/TsunagiRepository.kt:105-145 | Catch-up: a row no further than the overlap behind the watermark is examined within a bounded number of sweeps, however many rows arrive meanwhile |
| SweepCatchUp.BurstStallsForever | app/src/main/java/com/vce/tsunagi/data/TsunagiRepository.kt:113-145 | Without the density hypothesis the sweep stalls: 500 rows stored in one millisecond hide the next row from every later sweep |
| SweepCatchUp.ReadExists | app/src/main/java/com/vce/tsunagi/sms/SmsInbox.kt:27-56 | Whatever rows tie on their date, a bounded, ordered read of the inbox exists |
| FirstSweep.ReadsEligible | app/src/main/java/com/vce/tsunagi/data/TsunagiRepository.kt:105-118 | What a sweep goes over, in milliseconds: rows stored in the last 87000000 ms without a watermark, and otherwise since 600000 ms before it, after 1970; at most 500 of them, and one is left out only if 500 no later ones were read |
| FirstSweep.StoresEligible | app/src/main/java/com/vce/tsunagi/data/TsunagiRepository.kt:105-140 | A sweep stores no message but what such a row says |
| FirstSweep.MissingIsRecovered | app/src/main/java/com/vce/tsunagi/data/TsunagiRepository.kt:93-140 | And it does store what such a row says, if the message was missing with no row near it and no more than 500 were stored up to it |
| FirstSweep.OldHistoryStaysHome | app/src/main/java/com/vce/tsunagi/data/TsunagiRepository.kt:107-111 | From a newly installed phone, in a whole pass against any server, nothing is uploaded but what it had captured and the last 24 hours and 10 minutes of its inbox |
| Delivery.StepKeeps | app/src/main/java/com/vce/tsunagi/data/TsunagiRepository.kt:201-330 | Every step of phone, network and server, in any interleaving, keeps the invariant over rows, chosen batches, requests in flight, answers, half-settled answers and committed rows; choosing a batch, marking it, and each statement that settles an answer are steps of their own |
| Delivery.NoIdIsEverLost | app/src/main/java/com/vce/tsunagi/data/TsunagiRepository.kt:249-306 | In every run, with overlapping passes, lost, repeated and delayed requests, crashes between any two statements, requeues and pruning, and whatever other devices upload: each message ever captured is still a row of the phone or its id was committed by the server, and the id of every SYNCED row was committed |
| Delivery.ActsOnce | app/src/main/java/com/vce/tsunagi/data/TsunagiRepository.kt:260-305 | In every run, however often the server answers one upload, the phone acts on one answer at most, or on silence, and never on both |
| Delivery.EveryRowWasCaptured | app/src/main/java/com/vce/tsunagi/data/TsunagiRepository.kt:79-191 | What is never lost is everything: in every run, what any row of the phone says is on the record of captures, whether a broadcast or a sweep stored it |
| Delivery.NothingAfterCancel | app/src/main/java/com/vce/tsunagi/sync/SyncScheduler.kt:25-50 | A worker that is cancelled or dies with the process does nothing more with its batch: it neither marks it, nor acts on an answer, nor goes on settling one |
| Delivery.ClearsOwnRows | backend/app/repositories.py:279-289 | Clearing a device deletes its rows and no other; what it held is created anew when sent again |
| Delivery.NothingIsEverLost | app/src/main/java/com/vce/tsunagi/data/TsunagiRepository.kt:249-306 | The message itself: if no other device uploads its id over another content, a captured message is a row of the phone or its content was committed, and if marked SYNCED its content was committed (exactly when it is not: Confirmations) |
| Delivery.NeverStoredTwice | backend/app/repositories.py:113-140 | One sighting, its time included, is never stored under two ids, in every run in which no other device uploads it under an id of its own (two sightings of one message can be: SecondSightings) |
| Delivery.ForeignIdSwallowsMessage | backend/app/schemas.py:160-164 | That hypothesis is needed: the server takes any id from any device, and once the id is stored over another content the phone confirms a message that is not stored |
| Delivery.RunKeepsAll | backend/app/repositories.py:113-140 | Whatever holds of every row the phone derives and of everything other devices upload holds of every row the server ever commits |
| Delivery.ServeKeeps | backend/app/repositories.py:113-140 | A 200 vouches only for ids the server has committed |
| Delivery.MarkKeeps | app/src/main/java/com/vce/tsunagi/data/TsunagiRepository.kt:255-259 | A batch is posted as it was chosen, even if its rows changed status, were withheld or were pruned before it was marked |
| Delivery.SettlingKeeps | app/src/main/java/com/vce/tsunagi/data/TsunagiRepository.kt:341-372 | A truthful answer leads only to statements that confirm committed ids |
| Delivery.ApplyKeeps | app/src/main/java/com/vce/tsunagi/data/TsunagiRepository.kt:364-370 | Each such statement, run whenever, marks as SYNCED only what was committed |
| Delivery.PruneKeeps | app/src/main/java/com/vce/tsunagi/data/TsunagiRepository.kt:428-436 | Pruning never drops a message that is stored nowhere else |
| Confirmations.ContentIsStoredExactly | backend/app/repositories.py:113-140 | A request answered 200 leaves an acceptable message stored exactly when its id was not stored over another content before |
| Confirmations.StepCommits | backend/app/repositories.py:113-140 | One step of any party commits a message exactly when the server takes it in under an id not stored over another content, or another device supplies it |
| Confirmations.CommittedExactlyWhen | backend/app/services.py:368-406 | In every run a message is committed if and only if such a step happened, and its id counts as taken in if and only if the server answered 200 for it at some step |
| Confirmations.ConfirmedWithoutContent | app/src/main/java/com/vce/tsunagi/data/TsunagiRepository.kt:341-372 | Exactly when a message the phone is done with is not stored: every time the server answered 200 for it, and it did, the id was already stored over another content, and nobody else supplied it |
| StrayErrors.QuarantinedOnlyByStrays | app/src/main/java/com/vce/tsunagi/data/TsunagiRepository.kt:488-501 | In every run, a message the server would take is quarantined only if something other than the server blamed a request that held it alone |
| StrayErrors.StrayQuarantines | app/src/main/java/com/vce/tsunagi/data/TsunagiRepository.kt:269-304 | And then it is: once such an answer reaches the pass that awaits it, the message is set aside however acceptable |
| StrayErrors.ProxyQuarantines | app/src/main/java/com/vce/tsunagi/data/TsunagiRepository.kt:288-294 | A 404 from a proxy on a first upload is enough |
| StrayErrors.ServerSpares | backend/app/routers/messages.py:68-100 | The server itself never holds an acceptable message at fault |
| SyncEngine.Repository.CaptureSms | app/src/main/java/com/vce/tsunagi/data/TsunagiRepository.kt:79-89 | Captures a message once, reporting whether it was new |
| SyncEngine.Repository.StoreIfMissing | app/src/main/java/com/vce/tsunagi/data/TsunagiRepository.kt:161-191 | The scan over ids and claims does one step of the first-fit matcher, on the table in place |
| SyncEngine.Repository.Backfill | app/src/main/java/com/vce/tsunagi/data/TsunagiRepository.kt:105-154 | The sweep loop runs the matcher over what the inbox returned, counts what it stored, moves the watermark to the latest row examined, and leaves everything as it was when the inbox cannot be read |
| SyncEngine.Repository.UploadLoop | app/src/main/java/com/vce/tsunagi/data/TsunagiRepository.kt:249-306 | The loop ends, its calls are a legal pass within the 2n-1 bound, each request carries what the rows say, and it stops with an empty queue unless an answer halted it |
| SyncEngine.Repository.Settles | app/src/main/java/com/vce/tsunagi/data/TsunagiRepository.kt:260-305 | One answer applied in place, code by code: silence, 401, 403, 408, 429 or no 4xx leaves the batch FAILED and ends the pass; another 4xx quarantines a lone message and narrows a larger batch; a 200 confirms and counts what it does not refuse, stamped with its time |
| SyncEngine.Repository.ApplyVerdicts | app/src/main/java/com/vce/tsunagi/data/TsunagiRepository.kt:341-372 | Applies a 200 in place and returns how many messages it stored |
| SyncEngine.Repository.Prune | app/src/main/java/com/vce/tsunagi/data/TsunagiRepository.kt:428-436 | A row goes if and only if the retention is positive and the row is SYNCED since before now - days * 86400000; no other row changes, and the result counts those that went |
| SyncEngine.Repository.HandleHttpError | app/src/main/java/com/vce/tsunagi/data/TsunagiRepository.kt:503-523 | The token is dropped on a 401 outside registration and on nothing else; that, a 429 and the server's own errors are worth another try, all else is a failure |
| SyncEngine.Repository.EnsureRegistered | app/src/main/java/com/vce/tsunagi/data/TsunagiRepository.kt:443-477 | A stored token is never replaced, a new one comes exactly from an accepted registration with a setup key, which erases the stored key, and each way of failing is reported as the one outcome it has |
| SyncEngine.Repository.CheckIn | app/src/main/java/com/vce/tsunagi/data/TsunagiRepository.kt:380-421 | A 404 falls back to the heartbeat; the token goes only on a 401 of the call that decided, and each failure is reported as the one outcome it has |
| SyncEngine.Repository.Prepare | app/src/main/java/com/vce/tsunagi/data/TsunagiRepository.kt:220-242 | Sweep, then requeue, then hold back, in that order; the watermark and the time of the sweep are recorded exactly when the inbox was read; the window is cleared either way |
| SyncEngine.Repository.Finish | app/src/main/java/com/vce/tsunagi/data/TsunagiRepository.kt:244-330 | From a prepared table: what the pass uploads, that its answers are the server's to the requests it made, what it leaves when it ends, halts or cannot register, what becomes of key and token, and how it reports: by its last answer, code by code, and otherwise by the check-in |
| SyncEngine.Repository.Sync | app/src/main/java/com/vce/tsunagi/data/TsunagiRepository.kt:201-330 | One whole pass: all of that, from the table it prepares; how far the sweep got; and that no upload carries a message of the window it applies; a paused phone touches nothing |
| SyncEngine.UnregisteredForGood | app/src/main/java/com/vce/tsunagi/data/TsunagiRepository.kt:467-469 | After a registration, with nothing typed in since, a pass that drops the token on a 401 leaves the phone unregistered for every later pass, since the key is gone; the comment at 479-481 says it enrols again |
| SyncEngine.WindowStaysHome | app/src/main/java/com/vce/tsunagi/data/TsunagiRepository.kt:234-242 | In the pass that applies a window, every message of every upload was received outside it |
| SyncEngine.FirstFree | app/src/main/java/com/vce/tsunagi/data/TsunagiRepository.kt:176-186 | Scanning the ids oldest first finds the row the matcher specifies |
| EngineRuns.SyncPassIsARun | app/src/main/java/com/vce/tsunagi/data/TsunagiRepository.kt:201-330 | Refinement: from any reachable protocol state, the table and the store any pass leaves, registered or not, are those some continuation of the run leaves, with 200s from the server itself and errors or silence from anywhere, stored or not |
| EngineRuns.NoPassLosesAMessage | app/src/main/java/com/vce/tsunagi/data/TsunagiRepository.kt:201-330 | So after any pass every message captured before it is on the phone or its id was committed, and the id of every SYNCED row was |
| EngineRuns.AskedIsHonest | app/src/main/java/com/vce/tsunagi/data/TsunagiRepository.kt:260-265 | What Sync promises of its calls, with an api that answers as the server, is what the refinement needs of them |
| EngineRuns.SyncInARun | app/src/main/java/com/vce/tsunagi/data/TsunagiRepository.kt:201-330 | Sync itself, called on the phone of any reachable protocol state: if its calls were answered by the server, the run goes on with the pass and nothing captured is lost |
| EngineRuns.Applying | app/src/main/java/com/vce/tsunagi/data/TsunagiRepository.kt:364-370 | The statements of a settlement, one step each, end where running them together ends |
| EngineRuns.PassShape | app/src/main/java/com/vce/tsunagi/data/TsunagiRepository.kt:249-304 | A pass uploads one hundred at a time or one at a time, only rows it started from, and rewrites no content |
| HeldBack.SettingsStore.PauseSync | app/src/main/java/com/vce/tsunagi/data/SettingsStore.kt:192-198 | Pausing records when, and leaves a window not yet applied alone |
| HeldBack.SettingsStore.ResumeSync | app/src/main/java/com/vce/tsunagi/data/SettingsStore.kt:206-216 | Resuming records the finished session only if it is to be held back, and then replaces any window still waiting |
| HeldBack.SettingsStore.ClearExclusionWindow | app/src/main/java/com/vce/tsunagi/data/SettingsStore.kt:218-220 | No window remains |
| HeldBack.EarlierSessionApplied | app/src/main/java/com/vce/tsunagi/data/SettingsStore.kt:206-216 | Of two held-back sessions that end before a pass runs, the first is still honoured in full if and only if the second covers it |
| HeldBack.NoUploadFromWindow | app/src/main/java/com/vce/tsunagi/data/TsunagiRepository.kt:231-306 | Whatever the server answers, no upload of the pass that applies a window carries a message received inside it |
| HeldBack.WithheldUntilTouched | app/src/main/java/com/vce/tsunagi/data/local/Daos.kt:154-162 | A withheld row is never dropped, re-stored or offered again, and one step releases it if and only if a pass marks, or settles a statement about, a batch with the row in it |
| HeldBack.HeldBackForever | app/src/main/java/com/vce/tsunagi/data/TsunagiRepository.kt:234-242 | In every run, a row withheld while no pass has it in hand, chosen, awaited or being settled, stays EXCLUDED with its content, and no later batch holds it |
| HeldBack.ReleasableExactlyWhenCarried | app/src/main/java/com/vce/tsunagi/data/TsunagiRepository.kt:254-306 | The exact condition: from any reachable state some run releases a withheld row if and only if a pass has it in hand |
| HeldBack.NotTakenUp | app/src/main/java/com/vce/tsunagi/data/TsunagiRepository.kt:254-259 | A row comes into a pass's hands only by being chosen from the queue |
| HeldBack.OverlappingPassesRelease | app/src/main/java/com/vce/tsunagi/sync/SyncScheduler.kt:26-50 | The immediate and the periodic worker can overlap: one withholds a row while the other awaits an answer about it, and an eight-step run then offers the withheld message |
| HeldBack.ChosenBatchReleases | app/src/main/java/com/vce/tsunagi/data/TsunagiRepository.kt:255-259 | With no answer awaited at all: a batch chosen before the window is applied and marked after it takes the row out of EXCLUDED, and its text is posted |
| HoldBackPass.HeldBackExactlyWhen | app/src/main/java/com/vce/tsunagi/data/TsunagiRepository.kt:220-242 | After a whole pass, a message of the window is EXCLUDED if and only if it was queued, stranded or held back on the phone, or that pass's own sweep stored it |
| HoldBackPass.HeldBackByList | app/src/main/java/com/vce/tsunagi/data/TsunagiRepository.kt:220-242 | The same said by the list the sweep read: it was not on hand and the sweep came upon it with every row it could be taken for claimed before |
| HoldBackPass.PassKeepsExcluded | app/src/main/java/com/vce/tsunagi/data/TsunagiRepository.kt:254-330 | The uploads and the pruning of a pass release nothing and withhold nothing |
| HoldBackPass.MissedIsQueued | app/src/main/java/com/vce/tsunagi/data/TsunagiRepository.kt:238-242 | A message the applying pass neither had nor stored is queued for upload as soon as a later sweep stores it |
| HoldBackPass.UnreadableSweepLetsThrough | app/src/main/java/com/vce/tsunagi/data/TsunagiRepository.kt:222-242 | So an inbox that could not be read in that pass lets every message of the session it had missed go up |
| HoldBackPass.CutSweepLetsThrough | app/src/main/java/com/vce/tsunagi/data/TsunagiRepository.kt:118-145 | And so does a backlog of 500 rows, which cuts that pass's sweep short before the message |
| PausedSessions.GoesUpExactlyWhen | app/src/main/java/com/vce/tsunagi/data/TsunagiRepository.kt:202-259 | A queued message nobody has in hand is handed to a pass for upload before the next resume, in some run, if and only if a running pass is past holding it back or read a window that does not cover it, or sync is on and the recorded window does not cover it |
| PausedSessions.OfferedExactlyWhen | app/src/main/java/com/vce/tsunagi/data/TsunagiRepository.kt:202-242 | The same condition decides whether it is ever in the queue while a pass uploads |
| PausedSessions.ChosenWasOffered | app/src/main/java/com/vce/tsunagi/data/TsunagiRepository.kt:254-259 | A batch holds only messages that are offered |
| PausedSessions.Reaches | app/src/main/java/com/vce/tsunagi/data/TsunagiRepository.kt:254-306 | A pass that uploads reaches every message that stays queued, batch by batch |
| PausedSessions.QuietSessionIsKept | app/src/main/java/com/vce/tsunagi/data/SettingsStore.kt:192-220 | A session that begins with no pass running is kept whole: nothing of it goes up while it lasts, and nothing it covers afterwards, until the next resume |
| PausedSessions.PassInOrder | app/src/main/java/com/vce/tsunagi/data/TsunagiRepository.kt:213-259 | In every run a pass requeues, then holds back, then, if it had a window, clears it, each once and in that order, and only then uploads |
| PausedSessions.SettingsExactly | app/src/main/java/com/vce/tsunagi/data/SettingsStore.kt:192-216 | A pause records its time and stops new passes; a resume ends it and replaces the window only by a session to be held back; resuming twice changes nothing more; a pass reads the window of the moment it begins |
| PausedSessions.EndedDoesNothing | app/src/main/java/com/vce/tsunagi/data/TsunagiRepository.kt:202-330 | A pass that has ended, or died with the process, takes no further step, whatever else runs |
| PausedSessions.GuardedStep | app/src/main/java/com/vce/tsunagi/data/TsunagiRepository.kt:231-242 | Until its turn to be held back, a guarded message stays guarded through every step of every pass and of the user |
| PausedSessions.RunningPassIgnoresPause | app/src/main/java/com/vce/tsunagi/data/TsunagiRepository.kt:202-212 | A pause does not stop a pass that is running: a message of the paused session goes up |
| PausedSessions.RunningPassWipesWindow | app/src/main/java/com/vce/tsunagi/data/TsunagiRepository.kt:234-242 | A pass applying an older window clears the one recorded meanwhile, and that session is never held back |
| Enrolment.StepKeeps | backend/app/repositories.py:331-362 | Every step of any number of racing registrations and cancellations keeps locks, tokens and device rows consistent |
| Enrolment.SingleUse | backend/app/services.py:97-134 | In every interleaving each token yields at most one committed device and names exactly that one, is never both used and cancelled, and a registration that lost leaves no device row |
| Enrolment.SpentInTime | backend/app/services.py:97-134 | However long a registration takes between look-up and UPDATE, no device row comes of a code that had expired or been cancelled when it was spent |
| Enrolment.PendingCodeEnrols | backend/app/services.py:97-134 | From every reachable state a code that is unused, not cancelled, not expired and not locked can enrol a device, which is the one row added and is named by the code; an administrator's key can without a code |
| Enrolment.UnusedCodeCancels | backend/app/services.py:312-318 | From every reachable state a code that is unused and not locked can be cancelled, expired or not |
| Enrolment.LookUpExactly | backend/app/deps.py:106-124 | A code is let past the door exactly when it is on record, unused, not cancelled and not expired |
| Enrolment.IssuingAndTime | backend/app/repositories.py:313-329 | A code is issued unused under an id of its own, and time never runs back |
| Enrolment.RollBackLeavesNothing | backend/app/services.py:97-117 | A request that dies lets go of its locks and leaves tokens and devices as they were |
| Enrolment.PendingMeansSpendable | backend/app/models.py:126-133 | The status shown to a caller is pending exactly when spending the code at that moment would succeed |
| Enrolment.SecondRegistrationLoses | backend/app/services.py:108-117 | Of two registrations that saw the code pending, the one that reaches the UPDATE after the other committed loses and leaves nothing |
| Enrolment.EnrolmentRepository.Consume | backend/app/repositories.py:331-352 | Succeeds exactly when the token is unused, not cancelled and not expired, and then records the device and the time; afterwards it is not pending, and no other token changes |
| Enrolment.EnrolmentRepository.Cancel | backend/app/repositories.py:354-362 | Succeeds exactly when the token is not used, and then records the time; afterwards it is not pending, and no other token changes |
| Enrolment.UninterruptedConsume | backend/app/repositories.py:331-352 | The stepped registration, left undisturbed, changes the tokens as the single statement does |
| Enrolment.UninterruptedCancel | backend/app/repositories.py:354-362 | So does the stepped cancellation |
| OffSwitch.Resolve | backend/app/deps.py:80-98 | A device credential is let in exactly when its device is active, and answered 401 exactly when no device row has it |
| OffSwitch.SwitchesByStamps | backend/app/repositories.py:48-50 | Exactly a device not revoked can be switched or revoked; enabling clears its first stamp and nothing clears its second |
| OffSwitch.AnswersByCode | backend/app/deps.py:72-98 | What becomes of a request: 429 if throttled, 401 without a row, 403 with either stamp on it, and otherwise let in and stored with a 200 or failed without storing |
| OffSwitch.TokenByAnswer | app/src/main/java/com/vce/tsunagi/data/TsunagiRepository.kt:503-523 | A 401 and no other answer costs the phone the token it has stored |
| OffSwitch.PassCarries | app/src/main/java/com/vce/tsunagi/data/TsunagiRepository.kt:244-265 | A pass sends under the token it began with and no other, until it ends |
| OffSwitch.RevokedIsShutOut | backend/app/models.py:61-63 | After a revocation, in every later state of every run, a request under that token is answered 403, and none is stored that had not been let in before |
| OffSwitch.DisabledIsShutOut | backend/app/deps.py:80-98 | The same from the moment a device is disabled until it is enabled |
| OffSwitch.EnabledLetsIn | backend/app/repositories.py:48-50 | A device enabled again, and not revoked, is let in again, and what its phone sends is stored |
| OffSwitch.LostAnswerStrands | backend/app/services.py:97-131 | A registration whose answer is lost has spent its code: the device row stays, and the phone holds no token in any later state |
| OffSwitch.FailedRegistrationRetries | backend/app/services.py:97-120 | One that fails before a token is issued spends nothing: from there the phone can still enrol |
| OffSwitch.NeverUnregistered | app/src/main/java/com/vce/tsunagi/data/TsunagiRepository.kt:443-523 | In every joint run, once a phone has stored a token it always holds one, no request is ever answered 401, and no pass again finds the phone unregistered |
| OffSwitch.EnrolsAgainExactlyWhen | app/src/main/java/com/vce/tsunagi/data/TsunagiRepository.kt:443-477 | A phone that holds a token enrols again, in some run, if and only if a registration is still in flight: decided or posted on a credential that is still good, or already answered |
| OffSwitch.OneCodeOneDevice | backend/app/deps.py:106-124 | With a single-use enrolment code it never holds two tokens, and once it holds one no registration is in flight |
| OffSwitch.OffMeansOff | backend/app/deps.py:80-98 | While a device is switched off, no request under its token is stored that was not already let in, whenever it was sent |
| OffSwitch.NothingStored | backend/app/deps.py:80-98 | When all of those are switched off and no registration can produce another, nothing the phone sends is stored but what was already let in |
| OffSwitch.StoresExactlyWhen | backend/app/deps.py:80-98 | The exact condition: with nothing switched back on, a phone gets another message stored in some run if and only if a request is already let in, or the token it has stored, one a running pass carries, one under way in a request, or one it can still get belongs to a device that is on |
| OffSwitch.CodePhoneStaysOff | app/src/main/java/com/vce/tsunagi/data/TsunagiRepository.kt:479-487 | So a phone that registered with a code stays off once its device is off |
| OffSwitch.SecondRegistrationWalksBackIn | backend/app/deps.py:76-78 | With a shared setup key it may not: a second pass that found the phone unregistered posts its registration after the switch, and the phone is back under a new device |
| OffSwitch.RevokedForGood | backend/app/repositories.py:85-87 | After a revocation no later step can switch the device back on |
| OffSwitch.StepKeeps | backend/app/deps.py:80-98 | Every token in circulation stays a device row of its own, whatever is disabled, revoked or re-enabled, and whichever of its tokens a pass still sends |
| Export.EmittedInOrder | backend/app/repositories.py:215-230 | Emitted rows match the filter and are strictly increasing in (received_at, id) |
| Export.PresentIsEmitted | backend/app/repositories.py:215-230 | A matching row present in every snapshot is emitted |
| Export.ExportUnderInterference | backend/app/repositories.py:195-230 | Whatever is inserted or deleted between queries, for any chunk size: nothing repeats, received_at never falls and ties come in increasing id, and a completed export holds every matching row that was there throughout |
| Export.StillTableIsSorted | backend/app/repositories.py:195-230 | On a table that stands still the export is the filter in sorted order |
| Export.ChunkingIsInvisible | backend/app/export.py:63-79 | On such a table the JSON and CSV text is the same for any two chunk sizes |
| Export.Page | backend/app/repositories.py:217-222 | A query returns the first rows past the cursor in key order, up to the chunk size |
| Export.IterFiltered | backend/app/repositories.py:215-230 | The paging loop makes exactly such a walk over the snapshots it sees and ends at the first empty or short page |
| Export.AsJson | backend/app/export.py:63-79 | Joined together, the yielded parts are the head, the comma-join of all rows and the tail, whatever the chunks |
| Export.JsonChunk | backend/app/export.py:72-78 | A chunk extends the comma-join of the rows before it, with a comma exactly where one belongs |
| Export.AsCsv | backend/app/export.py:45-60 | Joined together, the yielded parts are the header and every row once, one part for every chunk |
| LongPoll.ReadExactly | backend/app/repositories.py:232-240 | A read ends the poll with exactly the stored messages newer than since and from the requested sender, if one was requested; when there are none the poller waits, and no other poller notices |
| LongPoll.PublishExactly | backend/app/events.py:91-98 | Publishing puts the frame last in the queue of every poller that has not returned, unless 256 frames wait there; exactly then it is dropped |
| LongPoll.TakesOne | backend/app/services.py:441-471 | A poll starts with a read, and a waiting poller takes one frame at a time: a message frame makes it read again, any other is passed over |
| LongPoll.StoreExactly | backend/app/services.py:368-391 | Messages are committed under new ids and owed to the pollers from then on; a deletion removes what it names and nothing else |
| LongPoll.BlockedPollerReturns | backend/app/services.py:441-471 | A blocked poller returns by its own steps alone, with exactly the stored messages newer than since and from the requested sender, once there are any and all are published, unless a message frame was dropped from a queue holding no other |
| LongPoll.StepKeeps | backend/app/services.py:441-471 | Every commit, publish, delete, subscribe, read and time-out keeps the wake-up invariant |
| LongPoll.NoLostWakeUp | backend/app/services.py:441-471 | In every interleaving, a poller blocked after an empty read, with no message frame dropped for it, has for each committed message it waits for that message's frame in its queue or a publisher still to publish it |
| LongPoll.WakesUpWithAnswer | backend/app/services.py:389-391 | Even after drops: with everything published, a blocked poller drains its queue to exactly the messages it waits for, unless a message frame was dropped from a queue holding no other |
| LongPoll.DrainsToAnswer | backend/app/services.py:456-471 | Draining a queue returns the answer if and only if some frame announces a message and there is something to find |
| LongPoll.FloodLosesWakeUp | backend/app/events.py:82-98 | The hypothesis is needed: 256 other frames make a poller miss a committed and published message |
| EventBus.Bus.DeliverLocal | backend/app/events.py:91-98 | Every subscriber gets the frame unless its queue is full, and no queue grows past 256 |
| EventBus.Bus.Subscribe | backend/app/events.py:82-87 | A new subscriber starts with an empty queue and no other queue changes |
| EventBus.Bus.Unsubscribe | backend/app/events.py:88-89 | The subscriber is gone and no other queue changes |
| EventBus.BusFollowsProtocol | backend/app/events.py:82-101 | Each step of a poller is one of the bus's methods: subscribing, taking a frame, and leaving with messages or at the time-out |
| EventBus.PublishIsDeliver | backend/app/events.py:91-101 | Publishing in the protocol does to its queues what delivering does to the bus |
| EventBus.WaitForNew | backend/app/services.py:441-471 | Asks once before waiting and once per message frame, returns the first answer that is not empty, and gives up only when every answer was empty |
| RateLimit.RateLimiter.Check | backend/app/ratelimit.py:40-64 | Refinement: under a clock that never runs back, evicting counters never changes a decision from that of a limiter remembering every call, said by the calls themselves, and more than 4096 counters remain only if all are of the current window |
| RateLimit.IdealByCalls | backend/app/ratelimit.py:57-64 | The decision by the calls themselves: allowed if and only if those of this identity in the window, this one included, are within the limit; remaining is the limit less those, never below 0; retry_after the whole seconds left, at least 1 |
| RateLimit.OneMoreCall | backend/app/ratelimit.py:45-46 | One more call keeps the counters exact |
| RateLimit.EvictionIsSafe | backend/app/ratelimit.py:48-53 | Dropping past windows keeps every decision still to come |
| RateLimit.AtMostTwiceTheLimit | backend/app/ratelimit.py:37-64 | At most twice the limit gets through in any interval of one window length, wherever it starts |
| RateLimit.TwiceTheLimitHappens | backend/app/ratelimit.py:37-64 | And that much can get through |
| RateLimit.RetryReachesExactlyWhen | backend/app/ratelimit.py:57-64 | Waiting exactly retry_after reaches the next window if and only if less than a second, or a whole number of seconds, was left |
| RateLimit.RetryFallsShort | backend/app/ratelimit.py:57-64 | With 29.5 of 60 seconds left the limiter says 29, and waiting exactly that long stays in the window that refused |
| RateLimit.AdmittedGrows | backend/app/ratelimit.py:45-64 | A call inside the interval is let through exactly when its window has room |
| RateLimit.WindowBounds | backend/app/ratelimit.py:37-38 | A moment lies in its window: not before its start and before its reset |
| Multipart.Assemble | app/src/main/java/com/vce/tsunagi/sms/SmsReceiver.kt:94-126 | The captured messages are the maximal runs of parts with one resolved sender, each with its whole text and its first part's timestamp |
| Multipart.PartInResult | app/src/main/java/com/vce/tsunagi/sms/SmsReceiver.kt:112-121 | In the part's fields: each part is in a message from its display address unless missing or blank, else its originating one unless that is, else unknown; and that message holds its display text, else its raw one, else nothing |
| Multipart.AssemblyIsFaithful | app/src/main/java/com/vce/tsunagi/sms/SmsReceiver.kt:94-126 | What assembly returns is determined by the parts, holds all their text in order, changes sender at every boundary, and includes every part |
| Multipart.RunsAreUnique | app/src/main/java/com/vce/tsunagi/sms/SmsReceiver.kt:94-126 | There is only one such grouping, so that leaves no freedom in the result |
| Multipart.TextIsConserved | app/src/main/java/com/vce/tsunagi/sms/SmsReceiver.kt:121 | The bodies end to end are the text of all parts end to end |
| Wrappers.WhitespaceIs | app/src/main/java/com/vce/tsunagi/sms/SmsReceiver.kt:112-113 | What counts as blank in an address, character by character |
| Multipart.NeighboursDiffer | app/src/main/java/com/vce/tsunagi/sms/SmsReceiver.kt:115-120 | Messages side by side never share a sender |
| Multipart.EveryPartIsCaptured | app/src/main/java/com/vce/tsunagi/sms/SmsReceiver.kt:100-106 | Every part, an empty one included, is inside a message under its sender, and no sender is blank |
| Subscriptions.MatchIsMembership | backend/app/repositories.py:425-437 | For every non-empty comma-free list and wildcard-free event, the comma-wrapped LIKE holds exactly when the event is listed, on both databases |
| Subscriptions.RightExactlyForLiterals | backend/app/repositories.py:425-437 | The test is right for every list if and only if the event holds no wildcard |
| Subscriptions.LowerCaseIsExact | backend/app/schemas.py:238-247 | For lower-case names, as the two the API accepts, both databases agree with plain membership |
| Subscriptions.LikeIsOccurrence | backend/app/repositories.py:435 | A wildcard-free pattern between two percent signs is a substring test |
| Subscriptions.ListIsRecovered | backend/app/models.py:196-198 | event_names gives back the list create joined, for every comma-free list, if and only if no name is empty |
| Subscriptions.SameLetter | backend/app/repositories.py:425-437 | Two characters match when equal or, on SQLite only, when they are the two cases of one ASCII letter |
| Subscriptions.CapitalsDivide | backend/app/repositories.py:425-437 | A name stored with a capital is found on SQLite and not on PostgreSQL |
| Subscriptions.SplitJoin | backend/app/repositories.py:411 | Splitting undoes joining for every non-empty comma-free list |

## Left out

- Identity.Injective: takes the name-based UUID (section 4.3 of RFC 4122) as injective, so the joined string stands for the id; strings are Unicode scalar values, which excludes unpaired surrogates, the case where the UTF-8 step is not injective.
- UploadPass.CallsAreBounded: about the rows queued when the loop starts; a message captured while the loop runs adds to the count. `Delivery` covers captures in the middle of a pass, for safety only.
- InboxSweep.SweepIsIdempotent: needs that no row near a re-read candidate was pruned in between and that newcomers are read after the old candidates; `RepeatedSweeps` and `SecondSightings` say exactly what happens otherwise, for one newcomer among any number of old candidates and for a message swept alone after a prune.
- InboxSweep.KeepsExactlyWhen: is about candidates with distinct ids, so that its condition can speak of the starting table alone; with repeats the condition is that of `InboxSweep.KeepsAllExactlyWhen`, and `RepeatedSweeps.RepeatIsStored` shows the two differ.
- SweepCatchUp.EveryRowIsExamined: starts from a recorded watermark and an inbox that only grows; rows deleted from the inbox are not covered. The very first sweep is in `FirstSweep`.
- SyncEngine.Repository.Sync: a phone that is configured and has a usable server address; an exception thrown inside the sweep, other than an unreadable inbox, is not modelled.
- SyncEngine.Repository.UploadLoop: error texts are one constant each, not the server's words.
- EngineRuns.SyncPassIsARun: this phone alone talks to the server during the pass; other phones and administrators act between passes here, and at any point in `Delivery`.
- Delivery.NoIdIsEverLost: each server request is one step, so two transactions inserting the same id are serialised; what an administrator clears stays recorded as committed. A sweep is one step too; one that a crash or a capture interrupts has stored some of its candidates one by one, which is a run of capture steps. Senders are NUL-free, as a decoded SMS is.
- PausedSessions.GoesUpExactlyWhen: a step of a pass may be followed by any other; that a pass awaits its answer before it chooses again is not required of it, which only adds runs. A process death between holding back and clearing is the step Die.
- Enrolment.SingleUse: assumes the database locks the row an UPDATE matches until the transaction ends, as PostgreSQL does and SQLite does more coarsely; expiry is read when the UPDATE runs.
- OffSwitch.NeverUnregistered: no reset of the server's database and no "forget device" by the user, the two events that are meant to re-enrol a phone, and no new credential typed in by the user.
- OffSwitch.Resolve: device tokens only; setup keys, API keys and the normalising of enrolment codes are lookups of the same shape.
- Export.ExportUnderInterference: is about exports that complete; one whose table grows as fast as it reads need not end, and no bound is claimed.
- Export.AsCsv: how one row is rendered is a parameter; quoting is the csv module's.
- LongPoll.NoLostWakeUp: a read sees all committed matching messages, without the page limit of `list_since`; gaplessness between successive polls is not claimed, since creation order is not commit order. A publisher that dies between commit and publish is one that never publishes.
- RateLimit.RateLimiter.Check: time is a real number under a clock that never runs back; the limiter shared through Redis is not modelled.
- Subscriptions.RightExactlyForLiterals: events without a backslash, which one of the two databases reads as an escape.
- Timestamps are unbounded integers; the 64-bit wrap of the phone's clock arithmetic is out of reach of any date.
- Android's broadcast delivery, content provider, preferences, work scheduling and screens appear only as inputs and steps.
- HTTP, JSON, request validation and the ORM are reduced to what survives of a message and to maps that change at commit.
- Hashing of credentials, token generation, the Redis bus, webhook delivery, the audit log, full-text search, statistics, capture-health reporting, migrations, deployment and the dashboard are not part of this model.
