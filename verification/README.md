# Quipay backend: verified models of its state machines

The backend keeps money, work queues, cursors, schedules and secrets in step while processes crash, calls fail and
several replicas run at once. This project models the parts that carry that burden and proves what they keep. Time,
answers of remote services, delivery outcomes, faults and the interleaving of concurrent work are arbitrary inputs.
`dafny verify dfyconfig.toml` checks everything.

Every stateful component has the same shape. Its state is a datatype; one pure function per operation says what the
operation does; a class with the source's fields and loops is proved equal to those functions, call by call; and the
properties are proved about the functions, for every run and every input. Where a promise is false of the code, the exact
condition under which it holds is proved, together with an input that breaks it.

| file | component |
|---|---|
| `TreasuryLedger.dfy` | streams, balances and the audit trail: charge on first insert, refund on soft delete, rollback |
| `Redaction.dfy`, `RedactionMeaning.dfy`, `RedactionEngine.dfy` | the three chained rewrites of strings, what they mean word by word, the seed-phrase test, redaction of JSON values |
| `LedgerSyncer.dfy` | the cursor loop with its retrying job queue, and chained cycles |
| `AdvisoryLock.dfy` | cross-replica exclusion over a pool of database sessions |
| `WebhookDeadLetters.dfy`, `WebhookLifeCycle.dfy`, `WebhookOverlap.dfy`, `WebhookSharing.dfy`, `WebhookAudits.dfy`, `WebhookStarvation.dfy`, `WebhookWorker.dfy` | failed webhooks and the batches that retry them: their life cycle, when a shared listing breaks it, what bounds deliveries and audit rows all the same, how long an item waits, and the worker |
| `AuditQueue.dfy`, `AuditFlush.dfy`, `AuditSessions.dfy` | the audit write queue; one flush statement by statement; overlapping flushes over a pool of sessions |
| `ArchiveService.dfy`, `ArchiveChanges.dfy` | moving expired rows between two databases; which changes of a row survive that |
| `JobScheduler.dfy` | reconciling cron tasks with the schedule table |
| `MigrationFiles.dfy`, `MigrationRunner.dfy` | which files are migrations; applying and undoing them |
| `NonceManager.dfy` | the sequence number allocator |
| `AnalyticsCache.dfy` | the cache, and the analytics answers read through it |
| `ReportCalendar.dfy` | send dates and the midnight run |
| `Csv.dfy`, `Payslip.dfy`, `Printing.dfy`, `Sorting.dfy` | printers whose output must be read back or identify its input |
| `TreasuryMonitor.dfy` | burn rate, runway and alerts, over the real numbers |

## What the proofs found

Promises that the code does not keep in full; each has a lemma with the exact condition or with the input.

- A secret key can leave the redaction engine: the third rewrite spells `bearer` with a capital `B`, which completes an
  `S` and 54 capitals or digits in front of it (`RedactionEngine.UnfinishedKeyLeaks`; exactly when is
  `RedactionEngine.LeaksIff`). Everything else is clean, and a second pass settles it. `addPattern` (`src/audit/redactionEngine.ts:144-146`) has no effect on redaction.
- A page of 200 events that ends inside a ledger loses the rest of that ledger, and a queue that refuses jobs makes the
  syncer skip 200 ledgers for good (`LedgerSyncer.CycleCoversIff`, `LedgerSyncer.ShutdownLosesEvents`).
- The request for a page names no last ledger, so a ledger that closes while a cycle runs may be in its last page; the
  next cycle hands its events over again (`LedgerSyncer.ChainedCyclesHandOverOnceIff`, `LedgerSyncer.OverrunIsHandedAgain`), and a
  withdrawal among them is inserted twice (`src/db/queries.ts:312-323`).
- A cancellation reported by the chain is ingested as an upsert with a total of zero (`src/syncer.ts:297-309`), which the check
  constraint refuses (`src/db/schema.ts:76-79`). So the stream stays active, and the next stream of the same employer and worker is
  refused by the unique index (`TreasuryLedger.ChainCancelsNothing`).
- The syncer's comment says that a batch is skipped once its retries are used up (`src/syncer.ts:387-388`). The code does not:
  the queue reports no failure, so the page is asked for again, one dead letter for every three failed calls
  (`LedgerSyncer.Syncer.RunSync`). The model follows the code.
- The advisory lock excludes only while the pool keeps the holding session open; closing it for being idle or worn out
  (`src/db/pool.ts:201-203`) lets two replicas run one task (`AdvisoryLock.DropIsSafeIff`). An unlock on another session of
  the pool leaves the lock held.
- Batches of webhook retries decide by the rows as they listed them, and the lock around them is re-entrant on one
  session, so two batches of a replica may overlap. Then an item is delivered a sixth time though nothing failed, and a finished
  item is delivered and overwritten again (`WebhookSharing.PushedIsDeliveredSixTimes`, `WebhookOverlap.LateBatchRewritesFinished`).
  Listing an item keeps its promises for good exactly when no other batch has it (`WebhookSharing.ListingKeepsLifeCycleIff`).
- Database faults void the bound on webhook deliveries and can starve everything behind the item they fall on
  (`WebhookStarvation.FaultsStarve`).
- BEGIN, the inserts, COMMIT and ROLLBACK of an audit flush go through the pool one by one. An insert that reaches another
  session than the BEGIN commits by itself; if the flush fails later, its row is written again
  (`AuditFlush.FlushIsWholeIff`, `AuditFlush.FailedFlushWritesTwice`). Overlapping flushes may also reorder entries
  (`AuditQueue.SecondFlushReordersIff`), and error texts set on an entry after it is queued bypass the redaction
  (`AuditQueue.AttachedTokenIsPersisted`, `AuditQueue.AttachIsHarmlessIff`).
- A webhook event that changes between its listing for the archive and its deletion, or while any older copy of it is archived,
  loses the change (`ArchiveChanges.NewVersionSurvivesIff`, `ArchiveService.LateChangeIsLost`).
- A changed payroll schedule is picked up only when its cron expression changes (`JobScheduler.CurrentRowRunsIff`).
- A rollback looks for its file under a version padded to three digits, so the shipped files with four-digit versions are not
  found (`MigrationRunner.RollbackFindsItsFileIff`). An undone migration is the last applied one only if its version is the highest.
- A caller that returns a nonce it does not hold, because it returned it before or never had it, gives that nonce to two
  callers (`NonceManager.DoubleReturnDoublesNonce`, `NonceManager.EarlyReturnDoublesNonce`). So does an initialisation while a
  number above the account's is still held (`NonceManager.InitialiseIsSafeIff`).
- Asking for the trends of an address spelt `all` fills the cache entry of everybody's totals
  (`AnalyticsCache.SpeltAllReplacesTotals`).
- A report that is sent in a later month than it fell due in skips a month; day 28 does so after every February of a common
  year (`ReportCalendar.NoMonthIsSkippedIff`, `ReportCalendar.MarchIsSkipped`). A report whose sending could not be recorded is
  sent again (`ReportCalendar.NoReportTwiceIff`).
- A payslip field that holds one of the labels beside it makes two payslips share one signed string
  (`Payslip.StringIsOwnIff`); columns of the audit export that are written without escaping break it (`Csv.ExportReadsBackIff`).
- An overdrawn employer without running streams gets no alert (`TreasuryMonitor.NoAlertMeansCoverIff`,
  `TreasuryMonitor.OverdrawnRaisesNoAlert`). Overdue streams are in no burn rate, and only the first thousand streams count
  (`TreasuryMonitor.NoAlertMissesOverdue`, `TreasuryMonitor.PageIsCompleteIff`).

## Model

| member | source | states |
|---|---|---|
| `TreasuryLedger.EveryRunReconciles` | src/db/queries.ts:216-294 | after every serial run of upserts, cancels and deposits, aborted anywhere, each balance is deposits minus charges plus refunds; the trail with each stream's owner recomputes the charges; and each stream is charged once and refunded at most once |
| `TreasuryLedger.TrailAloneReconcilesTotal` | src/db/queries.ts:280-293 | the trail alone, folded without any table, gives by how much all balances together differ from all deposits |
| `TreasuryLedger.RefundsAreCovered` | src/db/queries.ts:1221-1299 | every refund lies between zero and the stream's total when no withdrawal is negative |
| `TreasuryLedger.RefundsAreWhatWasLeft` | src/db/queries.ts:1232-1299 | over every run a deleted stream was cancelled by one operation, and its refund is the total less what was withdrawn on record at that time, or nothing if more was |
| `TreasuryLedger.HistoryIsKept` | src/db/queries.ts:216-294 | later operations only append to the trail, and never change a stream's owner, total or deletion |
| `TreasuryLedger.UpsertReconciles` | src/db/queries.ts:235-294 | one upsert, insert or update, keeps balances, trail and the one-active-stream constraint in agreement |
| `TreasuryLedger.CancelReconciles` | src/db/queries.ts:1232-1299 | one soft delete keeps them in agreement |
| `TreasuryLedger.ChargedAfterWrite` | src/db/queries.ts:236-262 | writing a row changes the employer's charges by exactly the new stream's total, or not at all |
| `TreasuryLedger.Database.UpsertStream` | src/db/queries.ts:168-303 | executed, exactly when the total is positive, no other active stream has its employer and worker and no statement fails, it writes the described row and charges it, or changes withdrawal and status of a known one; else nothing changes; the caller hears of success exactly when it was executed and answered |
| `TreasuryLedger.RepeatedUpsertChangesNothing` | src/db/queries.ts:235-294 | an upsert that stands and is repeated after a lost answer charges nothing a second time |
| `TreasuryLedger.Database.SoftDeleteStream` | src/db/queries.ts:1221-1308 | a cancel that is executed marks the stream, gives its employer back what of the total was not withdrawn, or nothing if more was, and records just that; otherwise nothing changes; it answers whether there was a stream to cancel, and after a lost answer a repetition finds none |
| `TreasuryLedger.Database.Deposit` | src/routes/employers.ts:82-87 | reading the balance and setting it adds the amount to that employer's balance, and changes nothing else |
| `TreasuryLedger.ChainCancelsNothing` | src/syncer.ts:250-328 | an active stream stays active whatever the chain reports, and until something else ends it every new stream of its employer and worker is refused |
| `TreasuryLedger.ChainOnlyActivates` | src/syncer.ts:250-328 | no event of the chain cancels, completes or pauses a stream |
| `TreasuryLedger.CreationIsRecordedIff` | src/syncer.ts:174-196 | a creation on the chain is recorded, over rate times duration, exactly when that is positive, no other active stream has its employer and worker, and nothing fails |
| `RedactionEngine.RedactedTextIsClean` | src/audit/redactionEngine.ts:72-97 | for every string the output holds no JWT and no Bearer token, and a secret key exactly when the Bearer rewrite completes one |
| `RedactionMeaning.RedactTextIs` | src/audit/redactionEngine.ts:72-97 | the outcome for a string is the one and only that the source prescribes, stated by characters alone: the mark for a seed phrase; otherwise the text with all keys replaced, then all JSON web tokens, then all bearer tokens |
| `RedactionMeaning.RewriteIsReplaced` | src/audit/redactionEngine.ts:80-94 | each rewrite replaces the leftmost and longest word of its pattern, keeps the text before it, and goes on behind it until no word is left |
| `RedactionMeaning.LanguageIs` | src/audit/redactionEngine.ts:80-94 | the words of each pattern are exactly those its regular expression describes, character by character |
| `RedactionMeaning.SeedPhraseIff` | src/audit/redactionEngine.ts:121-132 | the test accepts exactly twelve or twenty-four lower-case words with ECMAScript white space between and perhaps around them |
| `RedactionEngine.RedactingTextAgain` | src/audit/redactionEngine.ts:72-97 | redacting again changes nothing if and only if nothing leaked, and a second pass always settles |
| `RedactionEngine.SeedPhraseIsHidden` | src/audit/redactionEngine.ts:75-78 | twelve or twenty-four lower-case words, however spaced, come out as the mark alone |
| `RedactionEngine.InnocentTextIsKept` | src/audit/redactionEngine.ts:72-97 | text with no secret in it comes out unchanged |
| `RedactionEngine.UnfinishedKeyLeaks` | src/audit/redactionEngine.ts:90-94 | `S`, any 54 capitals or digits and `bearer x` become a full secret key |
| `RedactionEngine.LeaksIff` | src/audit/redactionEngine.ts:80-94 | a text leaks if and only if it holds an unfinished key, an `S`, 54 capitals or digits and a Bearer match with a lower-case `b`, that the first two scans pass over and at whose end the third starts a match |
| `RedactionEngine.LeakNeedsUnfinishedKey` | src/audit/redactionEngine.ts:80-94 | a text leaks only if the original text holds an `S`, 54 capitals or digits, and a Bearer match that starts with a lower-case `b` |
| `RedactionStages.RewriteLeavesNone` | src/audit/redactionEngine.ts:80-94 | each rewrite leaves no match of its own pattern and creates none of another, except a key ended by the Bearer mark |
| `RedactionStages.BearerLeavesKeyIff` | src/audit/redactionEngine.ts:90-94 | a secret key survives the third rewrite exactly when its capital ends an unfinished one |
| `RedactionPatterns.CleanIffAbsent` | src/audit/redactionEngine.ts:80-94 | the greedy matcher finds a match somewhere exactly when some stretch of the text is in the language of the regular expression |
| `RedactionPatterns.LanguageIsMatched` | src/audit/redactionEngine.ts:80-94 | wherever the text starts with a word of the language, the matcher takes at least that word |
| `SeedPhrases.PhraseIsRecognised` | src/audit/redactionEngine.ts:121-132 | every layout of twelve or twenty-four lower-case words passes the seed-phrase test |
| `SeedPhrases.SeedPhraseIsLayout` | src/audit/redactionEngine.ts:121-132 | whatever passes the test is twelve or twenty-four lower-case words with blanks between and around them |
| `JsonRedaction.RedactedIsSafe` | src/audit/redactionEngine.ts:53-116 | every sensitive key, in any case, holds the mark; all other strings are free of tokens; and of secret keys too exactly when none leaks |
| `JsonRedaction.RedactKeepsShape` | src/audit/redactionEngine.ts:53-116 | arrays keep their length, objects their keys and order, outside sensitive keys |
| `JsonRedaction.RedactComesOut` | src/audit/redactionEngine.ts:53-116 | exactly the fields whose name was given, but for case, come out as the mark; every other value, at any depth, comes out redacted as its own kind demands |
| `JsonRedaction.KeptIffInnocent` | src/audit/redactionEngine.ts:53-116 | a value comes out as it went in if and only if it holds no named field that is not marked already and no text with anything to hide |
| `JsonRedaction.RedactingAgain` | src/audit/redactionEngine.ts:53-116 | redacting a tree again changes nothing if and only if no string leaked; two passes settle it |
| `JsonRedaction.RedactionService.RedactObject` | src/audit/redactionEngine.ts:102-116 | each field keeps its key and place; it holds the mark if its lower-cased name is among the lower-cased names given, and else its own value redacted |
| `JsonRedaction.RedactionService.RedactData` | src/audit/redactionEngine.ts:53-67 | the public operation gives this for every value, and the value itself exactly when there is nothing in it to hide |
| `JsonRedaction.RedactionService.AddSensitiveField` | src/audit/redactionEngine.ts:137-139 | the sensitive names are those given before and this one, compared without case |
| `LedgerSyncer.CycleCoversIff` | src/syncer.ts:351-418 | with pages cut at 200 events and at whatever ledger was closed when they were asked for, a cycle hands over the ledgers it reached exactly once and in order if and only if no page stopped inside a ledger and no skipped stretch held an event |
| `LedgerSyncer.CoverageIff` | src/syncer.ts:351-418 | at every moment of a cycle, everything up to where it reached was handed over exactly once and in order if and only if each page was whole |
| `LedgerSyncer.AnsweredCycleHandsAll` | src/syncer.ts:351-418 | a cycle whose windows are all answered with whole pages hands over every event of the ledgers it reached, among them all up to its latest, once and in order |
| `LedgerSyncer.LimitedPageIsWholeIff` | src/syncer.ts:356-376 | a page covers the ledgers the cursor moves over, also those past the latest ledger of the cycle, exactly when the limit does not cut a ledger |
| `LedgerSyncer.HandedIsDueAndOverruns` | src/syncer.ts:332-422 | however cycles overrun their latest ledger or die before saving, also in the middle of a page, what is handed over is everything due, once, and the overrun events again |
| `LedgerSyncer.ChainedCyclesHandOverOnceIff` | src/syncer.ts:332-422 | with whole pages, chained cycles hand over what is due exactly once and in chain order if and only if none overran its latest ledger and none died after handing something over |
| `LedgerSyncer.EachEventOnceIff` | src/syncer.ts:351-402 | every event behind the saved cursor was handed over exactly once if and only if none of them was overrun |
| `LedgerSyncer.OverrunsNothingIff` | src/syncer.ts:356-376 | a completed cycle overruns nothing exactly when its cursor stopped right behind its latest ledger |
| `LedgerSyncer.OverrunIsHandedAgain` | src/syncer.ts:356-402 | an event of a ledger past the latest one is handed over by the cycle that met it and by the next one |
| `LedgerSyncer.SavedCursorGrows` | src/db/queries.ts:200-212 | the saved cursor never falls and rises exactly when a completed cycle had something to do |
| `LedgerSyncer.NothingIsMissed` | src/syncer.ts:332-422 | with whole pages, and cycles dying or overrunning anywhere, no event behind the saved cursor is missed |
| `LedgerSyncer.ShutdownLosesEvents` | src/syncer.ts:386-399 | a refused job moves the cursor past events that are then never handed over |
| `LedgerSyncer.Syncer.RunSync` | src/syncer.ts:332-422 | the loop ends whenever no page fails for ever; its log of windows tells exactly what was handed over, buried and saved; a window is skipped exactly when the queue had accepted as many jobs before as it ever will, so a run that stays below that has none |
| `LedgerSyncer.Syncer.RunBatchJob` | src/queue/asyncQueue.ts:63-111 | one job calls at most three times, moves the cursor only on success, and buries one dead letter otherwise |
| `AdvisoryLock.Exclusion` | src/utils/lock.ts:11-47 | in every interleaving in which sessions close only by crashes, no two replicas run tasks under one lock |
| `AdvisoryLock.ExclusionFromStart` | src/utils/lock.ts:11-47 | the same from the moment nothing is connected |
| `AdvisoryLock.StepKeepsInv` | src/utils/lock.ts:11-47 | all running tasks acquired on the one holding session, whose count is at least their number |
| `AdvisoryLock.DropIsSafeIff` | src/utils/lock.ts:17-37 | closing a session keeps exclusion for all futures exactly when it does not hold the lock for a live task |
| `AdvisoryLock.DroppingTheHolderIsUnsafe` | src/utils/lock.ts:17-37 | after the holder is closed, two steps lead to two replicas running |
| `AdvisoryLock.WrongSessionKeepsLock` | src/utils/lock.ts:34-37 | an unlock sent to another session releases nothing |
| `AdvisoryLock.SecondTaskStartsIff` | src/utils/lock.ts:17-30 | a second task runs beside a first exactly when the pool hands it the holding session |
| `AdvisoryLock.LockTable.WithAdvisoryLock` | src/utils/lock.ts:11-47 | with queries that may fail before or after the database executed them: the task runs exactly when its lock query is answered and the lock granted, errors are thrown exactly when a query or the task failed, and the lock ends as it began exactly when it was not taken or one session served both queries |
| `WebhookLifeCycle.PushedItemLivesOn` | src/webhookDlqWorker.ts:89-202 | through every interleaving of pushes, overlapping batches, single writes, faults and dying processes in which a pushed item is never on two lists at a time, it keeps its life cycle whenever no batch has it in hand: retry count below five and a retry time while pending, at most five deliveries and one more for each fault on it; without a fault, deliveries as many as counted and spaced by the schedule, and one audit row exactly when discarded |
| `WebhookSharing.ListingKeepsLifeCycleIff` | src/webhookDlqWorker.ts:89-224 | listing an item keeps its life cycle, in every continuation that lists it alone, if and only if no other batch has it on its list or in its hands |
| `WebhookLifeCycle.FifthDeliveryIsLast` | src/delivery.ts:31-48 | without a fault on the item: at most five deliveries, the fifth at least 25,950,000 ms after the push and final; replayed exactly when the last delivery succeeded |
| `WebhookLifeCycle.UnwrittenEndsWell` | src/webhookDlqWorker.ts:101-201 | in each of the five branches, however many of its writes reach the database, the item is left in its life cycle |
| `WebhookLifeCycle.StepKeepsAlive` | src/webhookDlqWorker.ts:89-224 | each single step keeps the item either in its life cycle or as the one batch that has it expects it |
| `WebhookOverlap.SixDeliveries` | src/scheduler/scheduler.ts:488-509 | two batches that both list an item deliver it a sixth time without any fault |
| `WebhookSharing.PushedIsDeliveredSixTimes` | src/scheduler/scheduler.ts:488-509 | from the push into an empty table a run of the worker leads to six deliveries without any fault |
| `WebhookOverlap.LateBatchRewritesFinished` | src/webhookDlqWorker.ts:89-202 | a batch that comes late to a row delivers and overwrites it though it is finished |
| `WebhookOverlap.PushedItemIsBounded` | src/webhookDlqWorker.ts:89-224 | in every run, however lists overlap, a pushed item gets at most five deliveries, one more for each fault on it, six more for each write onto a row somebody else had changed, and those in flight |
| `WebhookAudits.AuditRowsAreBounded` | src/webhookDlqWorker.ts:101-201 | in every run a pushed item gets at most one audit row, and one more for each write onto a row somebody else had changed |
| `WebhookOverlap.FinishedIsFinal` | src/db/dlq.ts:48-78 | a finished item that no batch has is never touched again |
| `WebhookStarvation.NoStarvation` | src/webhookDlqWorker.ts:204-224 | with batches that do not overlap and rows processed to the end, a due item with k items ahead is listed at the latest by batch number k / size + 1 |
| `WebhookStarvation.PassedOver` | src/db/dlq.ts:48-78 | while an item is passed over, each batch uses up that many of the items ahead, or as many rows lost by faults and deaths |
| `WebhookStarvation.FaultsStarve` | src/webhookDlqWorker.ts:147-158 | an item whose outcome cannot be saved is delivered without bound while no list ever holds another |
| `WebhookStarvation.SavedLeaves` | src/webhookDlqWorker.ts:158-201 | a row saved to the end is finished, or waits for a time behind every item that was due meanwhile |
| `WebhookWorker.Worker.ListDue` | src/db/dlq.ts:48-78 | lists the pending items that are due, earliest first and older first among equals, each once, up to the limit |
| `WebhookWorker.Worker.PushToDLQ` | src/delivery.ts:238-260 | a failed webhook is stored pending, due in 30 seconds, and its life cycle begins |
| `WebhookWorker.Worker.ProcessItem` | src/webhookDlqWorker.ts:89-202 | decides by the row as listed: undeliverable or tried five times, it is discarded; delivered, replayed; failed, it waits 2, 10, 60 or 360 minutes for the next retry or is discarded after the fifth; its writes, up to the one that fails, are a run of the single steps |
| `WebhookWorker.Worker.RunBatch` | src/webhookDlqWorker.ts:204-224 | lists what is due, works through the list, a fault on one row not keeping it from the next, and is a run of the single steps of one batch |
| `AuditQueue.NothingVanishes` | src/audit/auditLogger.ts:338-413 | with flushes taken in one piece, over every interleaving the queue keeps its bound, and what was offered is persisted, in flight, queued, dropped or lost, each entry exactly once |
| `AuditQueue.RedactedIsStored` | src/audit/auditLogger.ts:338-356 | with redaction on, message, error and stack are stored redacted, each in its own place, and the context with exactly its sensitive fields hidden; without it the entry is stored as it is |
| `AuditQueue.RollbackKeepsNewest` | src/audit/auditLogger.ts:394-409 | a rollback keeps exactly the newest entries up to the bound |
| `AuditQueue.SecondFlushReordersIff` | src/audit/auditLogger.ts:369-413 | a new flush is sure to keep the order exactly when no other is in flight |
| `AuditQueue.AttachedTokenIsPersisted` | src/audit/auditLogger.ts:176-186 | a token in an error text that is set on a queued entry is written as it is |
| `AuditQueue.AttachIsHarmlessIff` | src/audit/auditLogger.ts:176-186 | setting error texts on a queued entry lets no token into the database, whatever follows, if and only if they hold none |
| `AuditFlush.FlushIsWholeIff` | src/audit/auditLogger.ts:385-398 | a flush by itself is all or nothing, in order, and leaves no transaction open if and only if its statements fit: what matters is whether inserts, COMMIT and ROLLBACK reach the session of the BEGIN |
| `AuditFlush.OneSessionIsWhole` | src/audit/auditLogger.ts:385-398 | a flush served by one session is always whole, wherever it fails |
| `AuditFlush.FailedFlushWritesTwice` | src/audit/auditLogger.ts:385-398 | a row whose insert reached another session stays when the flush fails, and the next flush writes it a second time |
| `AuditFlush.StagedIff` | src/audit/auditLogger.ts:389-393 | rows are written in order exactly when none was put in the transaction before one outside it |
| `AuditFlush.FailedTransactionWritesNothing` | src/audit/auditLogger.ts:385-398 | after a failed statement nothing of its transaction can be written any more, and other sessions are not touched |
| `AuditSessions.StatementsRefineFlushes` | src/audit/auditLogger.ts:369-413 | statements of overlapping flushes that each have a session of their own, interleaved in any way, do what flushes in one piece do |
| `AuditSessions.ServedFlushesWriteOnce` | src/audit/auditLogger.ts:338-413 | so no entry is written twice, the queue keeps its bound, and everything offered stays in exactly one place |
| `AuditSessions.ServedFlushesKeepOrder` | src/audit/auditLogger.ts:369-413 | and with one flush at a time rows are written in the order of logging |
| `AuditSessions.ServedFlushesWriteNoToken` | src/audit/auditLogger.ts:338-356 | with redaction on, no message, context or error text is written with a token in it, and every sensitive field of a context holds the mark, unless an error text with a token was set late |
| `AuditSessions.AuditLogger.EnqueueWrite` | src/audit/auditLogger.ts:338-364 | the stored entry is the logged one, redacted part by part when redaction is on; it goes to the end of the queue when there is room, and is dropped otherwise |
| `AuditSessions.AuditLogger.AttachError` | src/audit/auditLogger.ts:182-185 | error texts set late replace those of the queued entry; no token is ever written because of it if and only if they hold none |
| `AuditSessions.AuditLogger.BeginFlush` | src/audit/auditLogger.ts:369-383 | takes the whole queue into flight, or does nothing |
| `AuditSessions.AuditLogger.NextOf` | src/audit/auditLogger.ts:385-393 | a statement on its flush's own session keeps every session's rows as they should be, and changes the table only when it is the COMMIT, by the whole batch |
| `AuditSessions.AuditLogger.RollBack` | src/audit/auditLogger.ts:394-412 | puts the batch back in front and drops the oldest; a failing ROLLBACK loses the batch |
| `AuditSessions.AuditLogger.FlushQueue` | src/audit/auditLogger.ts:369-413 | the loop over the statements is the specified flush, whole if and only if the sessions fit |
| `ArchiveService.NoRowIsLost` | src/services/archiveService.ts:277-345 | in every run of overlapping movers, failing between any two statements, each row is live or archived, archived at most once, and an unchanged row's copy is that row anonymised |
| `ArchiveService.StepKeepsInv` | src/services/archiveService.ts:277-345 | every statement keeps this, and a committed mover may delete at any later time |
| `ArchiveService.CopiedKeeps` | src/services/archiveService.ts:289-328 | the inserts add a copy for every row that had none, keep the others, and never make two |
| `ArchiveService.CyclesConverge` | src/services/archiveService.ts:499-550 | two tables of the same rows with nothing expired left are equal, whatever failures and reruns brought them there |
| `ArchiveService.RerunsConverge` | src/services/archiveService.ts:499-550 | whatever failed on the way, once enough undisturbed moves follow, every history of a table ends in the same live rows and archived copies |
| `ArchiveService.UndisturbedMovesFinish` | src/services/archiveService.ts:519-547 | each undisturbed move takes a full batch of expired rows away or all there are |
| `ArchiveService.MoveIsSafe` | src/services/archiveService.ts:277-345 | a move removes as many rows as it counts, none when it fails, and leaves nothing expired when it counts less than its limit |
| `ArchiveService.HistoryKeeps` | src/services/archiveService.ts:183-345 | after any number of moves with cutoffs up to a latest one, every row that is not settled, or not older than that, is live exactly as before |
| `ArchiveService.LateChangeIsLost` | src/services/archiveService.ts:389-470 | in particular, a change between copying and deleting survives nowhere once the mover deletes |
| `ArchiveChanges.ChangeSurvivesIff` | src/services/archiveService.ts:389-470 | a change survives every continuation, until the next change, if and only if the archived copy reads like the new version or, while there is none, so does every version on a mover's list |
| `ArchiveChanges.NewVersionSurvivesIff` | src/services/archiveService.ts:389-470 | a change to a version that reads unlike all earlier ones survives every continuation exactly when no copy of the row is archived and no mover has listed it without having copied it |
| `ArchiveService.ReportIsTrueIff` | src/services/archiveService.ts:340-344 | the reported count is the number of rows removed exactly when nobody else took one of them |
| `ArchiveService.Store.ListExpired` | src/services/archiveService.ts:183-270 | lists the oldest settled rows from before the cutoff, oldest first, each once, up to the limit |
| `ArchiveService.Store.ArchiveRows` | src/services/archiveService.ts:277-345 | the transaction and the delete, stopped by a fault where it says |
| `ArchiveService.ArchiveService.RunSingleBatch` | src/services/archiveService.ts:472-497 | lists all three tables first, and a listing that fails stops everything; then one move on each, a failing one failing the round but not the others |
| `ArchiveService.ArchiveService.RunCycle` | src/services/archiveService.ts:499-550 | keeps every row safe however it ends, and every unsettled or recent row live as it was; reports exactly the rows removed; leaves no settled row from before its last cutoffs when it finishes early |
| `JobScheduler.HistoryAgrees` | src/scheduler/scheduler.ts:445-477 | after any history of refreshes, with stops and starts failing, running tasks and map are the same, one per id |
| `JobScheduler.RefreshOutcome` | src/scheduler/scheduler.ts:445-477 | what a refresh does to each id, in every case of row, cron expression and failure |
| `JobScheduler.CleanRefreshStartsAfresh` | src/scheduler/scheduler.ts:445-477 | a refresh without failures, from any state, gives the jobs one would build from scratch |
| `JobScheduler.CleanRefreshMakesTable` | src/scheduler/scheduler.ts:385-425 | these are exactly the rows with a valid cron expression |
| `JobScheduler.UnchangedJobIsKept` | src/scheduler/scheduler.ts:462-473 | a job whose cron expression is unchanged keeps its task, even when others fail |
| `JobScheduler.RefreshIsIdempotent` | src/scheduler/scheduler.ts:445-477 | a second refresh over the same table changes nothing |
| `JobScheduler.CurrentRowRunsIff` | src/scheduler/scheduler.ts:462-473 | a job runs its schedule's current row exactly when it was new, its cron expression changed, or the row did not |
| `JobScheduler.ShutdownStopsAll` | src/scheduler/scheduler.ts:770-796 | stopping leaves running exactly the tasks that refuse to stop |
| `JobScheduler.Scheduler.RefreshJobs` | src/scheduler/scheduler.ts:445-477 | the two loops are the specified refresh and keep map and tasks in agreement |
| `JobScheduler.Scheduler.ScheduleJob` | src/scheduler/scheduler.ts:385-426 | starts and records a task exactly when the cron expression is valid, the id is free and the start works |
| `JobScheduler.Scheduler.UnscheduleJob` | src/scheduler/scheduler.ts:428-443 | stops and forgets a job exactly when there is one and it can be stopped |
| `MigrationRunner.HistoryIsExact` | src/db/migrationRunner.ts:160-296 | in every history of runs and rollbacks, failing anywhere, the recorded versions are those whose SQL is in effect, each once |
| `MigrationRunner.RunAppliesPrefix` | src/db/migrationRunner.ts:185-240 | a run applies a prefix of the pending migrations, strictly ascending; it is done exactly when that is all of them |
| `MigrationRunner.RunsResume` | src/db/migrationRunner.ts:160-240 | after a failure the next finished run ends where one clean run would; after a finished run another changes nothing |
| `MigrationFiles.LoadIff` | src/db/migrationRunner.ts:80-124 | loading fails exactly when two files read as one version, and otherwise yields every migration in strictly ascending order |
| `MigrationFiles.ReadIff` | src/db/migrationRunner.ts:63-75 | a file is read as a migration exactly when its name is digits, an underscore, a name on one line and `.sql`, not ending in `_rollback.sql`; version, name and SQL are then those of the file |
| `MigrationFiles.LoadsExactly` | src/db/migrationRunner.ts:80-124 | so loading is refused exactly when two such files have one version, and otherwise yields exactly the migrations that the files are, ascending |
| `MigrationRunner.RollbackFilesDoNotMatter` | src/db/migrationRunner.ts:85-88 | directories that differ in rollback files only load the same and run the same |
| `MigrationRunner.RollbackFindsItsFileIff` | src/db/migrationRunner.ts:253-261 | a rollback finds the file that goes with its migration exactly when the version has three digits, or more and no leading zero |
| `MigrationRunner.FourthMigrationHasNoRollback` | src/db/migrationRunner.ts:253-261 | the shipped rollback of version 0004 is not found |
| `MigrationRunner.RollbackUndoesLastAppliedIff` | src/db/migrationRunner.ts:243-254 | a rollback takes back the migration applied last exactly when its version is above all recorded ones |
| `MigrationRunner.MigrateAfterRollbackRestoresIff` | src/db/migrationRunner.ts:243-296 | migrate, rollback, migrate restores the record exactly when the directory still has that version under its recorded name |
| `MigrationRunner.MigrationRunner.Migrate` | src/db/migrationRunner.ts:160-240 | refused exactly for an unloadable directory or a recorded migration whose checksum changed; else what was recorded stays, each new record is of a loaded migration with the checksum of its SQL, and a finished run has recorded all |
| `MigrationRunner.MigrationRunner.LoadMigrations` | src/db/migrationRunner.ts:80-124 | the loop over the files yields exactly the migrations the files are, ascending, or refuses exactly when two have one version |
| `MigrationRunner.MigrationRunner.Rollback` | src/db/migrationRunner.ts:243-296 | takes the highest recorded version off the record, or refuses, or fails, without a trace |
| `NonceManager.GrantIsSmallestFree` | src/services/nonceManager.ts:62-80 | nobody else holds a granted nonce, its caller is the only holder, and the books stay exact; it is the smallest above the base that nobody holds exactly when no number from before the last initialisation was returned |
| `NonceManager.ReleaseKeepsExactIff` | src/services/nonceManager.ts:86-92 | a release keeps the books exact, each issued number held by one caller or pooled once, if and only if its caller holds the number, it is pooled already, or it is from before the last initialisation and nobody's |
| `NonceManager.RunIsExactIff` | src/services/nonceManager.ts:27-92 | throughout a run of requests, returns and initialisations, which forget no holder, held and pooled numbers are exactly those since the base, each once and with one holder, if and only if every return was by one who may and every initialisation found no number above the account's held |
| `NonceManager.OneHolderEach` | src/services/nonceManager.ts:27-92 | so no number ever has two holders while every return and initialisation is proper |
| `NonceManager.InitialiseIsSafeIff` | src/services/nonceManager.ts:27-56 | an initialisation leaves one holder to each number, in all proper futures, if and only if the account's number is at least every number still held |
| `NonceManager.DoubleReturnDoublesNonce` | src/services/nonceManager.ts:86-92 | a number returned twice by one caller, the second time after it was handed on, is held by two callers afterwards |
| `NonceManager.EarlyReturnDoublesNonce` | src/services/nonceManager.ts:86-92 | so is one that is returned before it was ever handed out |
| `NonceManager.NonceManager.GetNonce` | src/services/nonceManager.ts:62-80 | hands out, and removes, the least number of the pool, or else the next of the sequence, initialising when needed; while the books are exact nobody else holds it, and above the base it is the smallest such |
| `NonceManager.NonceManager.ReleaseNonce` | src/services/nonceManager.ts:86-92 | takes the number from anyone; the books stay exact if and only if the caller may return it |
| `AnalyticsCache.SerialRunsAgree` | src/analytics.ts:197-307 | with requests handled one at a time and no address spelt `all`, every cached answer is what the query gives on the current table |
| `AnalyticsCache.SerialRunsAlmostAgree` | src/analytics.ts:197-307 | with any requests, only everybody's totals and those of the address `all` can stand in for each other |
| `AnalyticsCache.SpeltAllReplacesTotals` | src/analytics.ts:288-297 | asking for the address `all` makes the next reply for everybody the one for that address |
| `AnalyticsCache.KeysCollideIff` | src/analytics.ts:288-288 | two questions share a key exactly when they are equal, or one asks for everybody and the other for `all` |
| `AnalyticsCache.KeysAre` | src/analytics.ts:288-288 | the keys of all questions, spelt out |
| `AnalyticsCache.InvalidatedHoldsNoAnswer` | src/db/queries.ts:296-298 | the writers' invalidation removes every cached answer about the stream table, and only those |
| `AnalyticsCache.HitIsBoundedlyStale` | src/utils/cache.ts:15-34 | in every interleaving a hit answers for a version still current at most five minutes plus one query's latency ago |
| `AnalyticsCache.OutdatedAnswerIsCached` | src/analytics.ts:205-206 | a write between query and caching leaves the old answer in place for its whole lifetime |
| `AnalyticsCache.SetIsReadBackIff` | src/utils/cache.ts:15-61 | a value that was set is read back at any later time, whatever is done to other keys, if and only if its lifetime is not over |
| `AnalyticsCache.SimpleCache.InvalidateByPrefix` | src/utils/cache.ts:55-61 | removes exactly the keys with the prefix |
| `AnalyticsCache.Analytics.Handle` | src/analytics.ts:197-215 | replies with the cached answer while it is alive, else with the query's, which it caches for five minutes; other keys are not touched |
| `AnalyticsCache.Analytics.WriteStreams` | src/db/queries.ts:1301-1305 | a change of the stream table removes the totals and every trend from the cache, and nothing else |
| `ReportCalendar.WeeklyDateIsOnTarget` | src/db/payrollReportSchedule.ts:65-72 | the weekly date is on the target weekday modulo 7, and 1 to 7 days later exactly when the target is not more than a week below the current weekday |
| `ReportCalendar.MonthlyDateIsOnTarget` | src/db/payrollReportSchedule.ts:73-104 | monthly and quarterly dates are later, one or three months on, and always real dates, on the given day if that is 1 to 28, on the 1st below or without one, on the 28th above |
| `ReportCalendar.NoMonthIsSkippedIff` | src/scheduler/reportScheduler.ts:198-225 | over any run of nights on which delivery or recording fails or works, no month is skipped and none repeated if and only if every report is sent and recorded in the month in which it fell due |
| `ReportCalendar.NoReportTwiceIff` | src/scheduler/reportScheduler.ts:144-225 | over any run of nights the mails are those of the nights on which delivery worked for a due report, and no report is mailed twice if and only if every mail but the last was recorded |
| `ReportCalendar.MonthIsSkippedIff` | src/db/payrollReportSchedule.ts:88-104 | a report sent the day after it fell due is sent in the same month exactly when that was not the month's last day |
| `ReportCalendar.MidnightsFollowPlans` | src/scheduler/reportScheduler.ts:198-225 | every recorded send is for the date planned last, on the first later midnight on which delivery and recording work, and plans the next |
| `ReportCalendar.MarchIsSkipped` | src/db/payrollReportSchedule.ts:88-104 | day 28 in a common year, worked out |
| `ReportCalendar.MonthlySendsAreConsecutive` | src/scheduler/reportScheduler.ts:198-225 | with nights that all go well and a day of at most 27, sends are in consecutive months on the day after the target, none skipped or repeated |
| `ReportCalendar.WeeklySendsKeepTheirDay` | src/scheduler/reportScheduler.ts:198-225 | a weekly schedule run the day after it falls due keeps seven-day distances |
| `ReportCalendar.AddDaysAdds` | src/db/payrollReportSchedule.ts:70-70 | stepping over month and year ends arrives at the real date that many days away |
| `ReportCalendar.LaterMonthIsLater` | src/db/payrollReportSchedule.ts:73-104 | any day of a later month has a greater day number |
| `ReportCalendar.KnownWeekdays` | src/db/payrollReportSchedule.ts:68-69 | the weekday count agrees with two known dates |
| `ReportCalendar.ReportScheduler.Deliver` | src/scheduler/reportScheduler.ts:144-174 | three attempts at most, stopping at the first success |
| `ReportCalendar.ReportScheduler.RunMidnight` | src/scheduler/reportScheduler.ts:198-225 | a report that is due, or has no date yet, is sent, and only one whose sending is recorded moves the stored date |
| `Csv.ExportReadsBackIff` | src/audit/queryService.ts:94-124 | a non-empty export reads back as the header and, for each entry, a line with every field under its own header, whatever message and error text hold, exactly when the unescaped columns are plain |
| `Csv.EmptyExportIs` | src/audit/queryService.ts:95-97 | without entries the export is a shorter header line alone |
| `Csv.TableSurvivesIff` | src/audit/queryService.ts:94-124 | a printed table reads back as itself if and only if every bare cell is plain |
| `Csv.ReadsBackQuoted` | src/services/payrollReportService.ts:36-40 | reading an escaped field gives the original back, for every string |
| `Csv.BareTextSurvivesIff` | src/audit/queryService.ts:129-134 | a text written bare reads back exactly when it is plain |
| `Payslip.CanonicalIdentifiesPayslip` | src/services/signatureService.ts:102-115 | a payslip whose fields are free of bars has the same string as another exactly when fields and, as multisets, stream ids are equal |
| `Payslip.OrderOfIdsIsIrrelevant` | src/services/signatureService.ts:102-115 | the order of the ids does not matter |
| `Payslip.StringIsOwnIff` | src/services/signatureService.ts:102-115 | a payslip shares its string with no other if and only if none of the labels of worker, period and amount stands in one of the two fields beside it |
| `Payslip.IdListIsInjective` | src/services/signatureService.ts:102-115 | the printed id list determines the ids |
| `Payslip.PayslipData.CreatePayslipDataString` | src/services/signatureService.ts:102-115 | sorts the caller's id array in place and builds the canonical string |
| `Printing.ToDecimalIsInjective` | src/services/signatureService.ts:102-115 | different integers print differently |
| `Printing.SplitInvertsJoin` | src/services/signatureService.ts:102-115 | splitting undoes joining when no part holds the separator |
| `Sorting.SortedIsUnique` | src/services/signatureService.ts:102-115 | there is one sorted arrangement of the same ids |
| `TreasuryMonitor.RunwayIsSound` | src/monitor/monitor.ts:109-117 | when the runway reaches past the end of every counted stream, the balance covers all they owe if and only if it is not overdrawn |
| `TreasuryMonitor.NoAlertMeansCoverIff` | src/monitor/monitor.ts:234-236 | when all counted streams end within the threshold and there is no alert, the balance covers them if and only if it is not overdrawn |
| `TreasuryMonitor.OverdrawnRaisesNoAlert` | src/monitor/monitor.ts:109-117 | an employer with -500 and no counted stream gets no alert |
| `TreasuryMonitor.CoverIff` | src/monitor/monitor.ts:109-117 | for streams that end together the runway decides exactly whether they are covered |
| `TreasuryMonitor.FundsLastForRunway` | src/monitor/monitor.ts:109-117 | for any balance, everything due is paid at every moment up to the runway, and the balance is used up there exactly when no stream ends before |
| `TreasuryMonitor.ExhaustionDayIsCovered` | src/monitor/monitor.ts:119-126 | up to the announced day the balance pays all streams, and the day after is past the runway |
| `TreasuryMonitor.OverdrawnIsExhausted` | src/monitor/monitor.ts:119-126 | the announced date of an overdrawn employer is never after today |
| `TreasuryMonitor.PaidAtMostBurn` | src/monitor/monitor.ts:78-103 | in any time the streams pay at most burn rate times time, with equality exactly when none ends before |
| `TreasuryMonitor.BurnIsZeroIff` | src/monitor/monitor.ts:78-103 | the burn rate is never negative, and zero exactly when no stream is counted |
| `TreasuryMonitor.BurnAdds` | src/monitor/monitor.ts:78-103 | the burn rate of two lists together is the sum of theirs |
| `TreasuryMonitor.BurnIsPay` | src/monitor/monitor.ts:78-103 | the burn rate is the sum, over unpaid streams that have not ended, of what is left times 86,400 over the seconds left |
| `TreasuryMonitor.NoAlertMissesOverdue` | src/monitor/monitor.ts:92-96 | without an alert a balance that is not overdrawn covers all but the overdue part, which can grow by any amount unnoticed |
| `TreasuryMonitor.PageIsCompleteIff` | src/monitor/monitor.ts:164-164 | the rate of the first thousand streams is the full rate exactly when no stream behind them is counted |
| `TreasuryMonitor.StatusIs` | src/monitor/monitor.ts:132-189 | a status holds the employer's own balance and liabilities; the runway times the rate of the first thousand streams is that balance; and the announced day is the runway's whole days |
| `TreasuryMonitor.TreasuryMonitor.CalculateDailyBurnRate` | src/monitor/monitor.ts:78-103 | the loop computes that sum |
| `TreasuryMonitor.TreasuryMonitor.ComputeTreasuryStatus` | src/monitor/monitor.ts:132-189 | one status for every employer with a balance or liabilities: balance, liabilities, rate, runway and announced date |
| `TreasuryMonitor.TreasuryMonitor.RunCycle` | src/monitor/monitor.ts:199-325 | every employer gets such a status; it says that an alert was sent exactly when there is a runway, it is below the threshold, and delivery worked |

## Left out

- Routing, sockets, email and PDF rendering, IPFS, key custody, signatures, rate limits and circuit breakers: input and output without a property to prove here.
- SQL text and the database itself: tables are maps, constraints (`src/db/schema.ts:76-86`) are guards that abort a transaction, and the advisory lock follows PostgreSQL's documented session semantics.
- Concurrent ledger transactions and deposits: the deposit route reads, then sets, and is not atomic; the ledger model is serial. One token per employer.
- Strings are sequences of Unicode scalar values; lower-casing and cron validity are arbitrary functions; the hashes behind checksums and pseudonyms are arbitrary functions too.
- Object keys that JavaScript treats specially, such as `__proto__`.
- `AuditSessions.ServedFlushesWriteOnce`: holds for flushes that each have a session of their own, which the pool does not promise; for a flush by itself `AuditFlush.FlushIsWholeIff` gives the exact condition. Queries of the rest of the program on the same sessions are not modelled.
- `AuditSessions.AuditLogger.FlushQueue`: runs with nothing logged or flushed in between; interleaved flushes are the runs of the single statements.
- `LedgerSyncer.Syncer.RunSync`: waits between attempts, jitter and the concurrency of the queue are not modelled; a failing insert into the dead-letter table is not either. What counts is handing an event to ingestion: one whose ingestion fails is logged there and not retried (`src/syncer.ts:320-326`). A cycle dies between two events, not in the middle of one.
- `WebhookWorker.Worker.RunBatch`: runs without another batch in between; overlapping batches are the runs of the single steps. One clock serves table and worker. The parsing of addresses, payloads and counts from stored JSON becomes one flag and a number, and manual replay or removal by an administrator is not modelled.
- `ArchiveService.NoRowIsLost`: the anonymiser is an arbitrary function of the row; what its two patterns leave in a text is not stated.
- `ArchiveService.ArchiveService.RunCycle`: the three moves of a round touch different tables and are run one after another; when one fails, the lock is released while the others may still be running, which is covered by the overlapping movers of `ArchiveService.NoRowIsLost`.
- `JobScheduler.HistoryAgrees`: a stop that fails is taken to leave the task running, a start that fails to leave none.
- `MigrationRunner.HistoryIsExact`: runs of several processes at once are not modelled; a rollback's SQL is taken to undo its migration.
- `NonceManager.NonceManager.GetNonce`: requests run one at a time, as the request queue makes them; who calls is not known to the code and serves the statement only.
- `AnalyticsCache.HitIsBoundedlyStale`: the keys `analytics:address:` and `analytics:payroll:` have other lifetimes and writers; they are foreign keys here.
- `ReportCalendar.NoMonthIsSkippedIff`: one fixed time zone without daylight saving, on the proleptic Gregorian calendar; years below 100, which the date constructor moves to the twentieth century, are not special.
- `Csv.ReadsBackQuoted`: the line layout of the payroll report around its escaped cells is not modelled.
- `TreasuryMonitor.RunwayIsSound`: real arithmetic instead of floating point; parsing of amounts is not modelled.
- The rough next-run estimate of the scheduler, the topic parser of the event indexer and the cross-chain message parser: heuristics without a specification.
