# webhook-doorman, verified

webhook-doorman receives webhooks, stores each one once, and delivers it to the sinks of its source, with
retries, a dead-letter queue, an optional content detector and an admin API. This project models what is
hard about it in Dafny and proves what its code and documentation promise.

## The protocol

`Tables` holds the three tables of `store/sqlite.py` and each SQL statement over them as one function.
`Protocol` is a state machine: a step is one statement of one coroutine, one answer of a sink, an exception,
a crash or a start. Ingests, resumed redeliveries, releases, replays, sweeps and the handlers of the current
batch interleave freely between steps. What the code does not decide (detector verdicts, sink answers,
clocks, which of equally due rows a claim takes, jitter draws, the next configuration) is carried by the
action, so every theorem below holds for all choices of it.

* `Integrity` and `Invariant`: what each statement and each step keeps.
* `Safety`: references stay whole, no delivery is lost, settled is final, withholding is sticky, the first
  dispatch happens at most once and as a whole.
* `RollUp`: the event's final status does not depend on the interleaving.
* `Draining`: a termination measure, the number of attempts and the total wait of one delivery.
* `Accounting`: the counters, the histogram count and the attempt column agree.
* `Paging`: keyset paging over any run of the machine.
* `Observing`: the histogram of the registry has the same number.
* `Redelivery`: one redelivery completes an ingest that a crash cut short, wherever it struck and whatever runs
  beside it.
* `Holding`: exactly which steps give a held event deliveries.
* `Statements`: one statement of a request, whatever has happened since its last one.
* `Progress`: there is always a next step, and every batch of deliveries comes to its end.
* `Answers`: what each answer of a sink does to its row, and what is counted for it.
* `Limits`: reachable states in which three natural claims are false: `mark_delivered` raising half-way, a crash
  inside the roll-up, and a replay overlapping a screening. `Safety.SettledIsFinal`,
  `RollUp.StatusLostExactlyWhen` and `Holding.HoldIsKeptExactlyWhen` say exactly when each fails.

`Store` and `Engine` are the same code as objects: classes whose methods reassign their fields, proved
against functions of the tables. The `Lone...` lemmas show that a machine run of one request or one handler,
with nothing in between, computes the same function as the method.

`Settings` also says where an event goes in terms of the configured routes alone (`IsRouting`, `IsKept`), and
`FenceTags` what a fence tag is in terms of its grammar; the code's own functions are proved equal to these.

`Migration` is `_apply_schema`: a class with its two loops, and a machine with a crash between any two
statements. `Retry` is the `Retry-After` rule and the backoff arithmetic; `Settings` the routes and the
detector's policy.

## The texts

`Text` has Python's `str.replace`; `Redaction`, `Completion` and `JsonRedaction` the longest-first replacement chain;
`Escaping` the Slack and Markdown chains; `Labels` and `Metrics` the Prometheus labels, their reader, and the
registry; `Utf8` and `Truncation` the byte budget (RFC 3629); `FenceTags` and `Fencing` the fence around untrusted
text.

## Where the code and its documentation differ

* `fence_text` promises a fence its content cannot escape (src/webhook_doorman/fencing.py:118). Content that
  ends in an unfinished tag name, such as `<untrusted`, passes the stripping, and the wrapper's own newline
  completes it to something the module's own pattern reads as an opening. `Fencing.FenceIsUnambiguousExactlyWhen`
  says exactly when that happens, and `Fencing.FenceHolds` that it is the only thing that can.
* Redaction leaves a secret in the text when the marker `<redacted>` contains it, and can when the marker
  completes it (src/webhook_doorman/redaction.py:63-67). `Redaction.Clear` says that a value cannot overlap the
  marker in any position, and no such value is ever left; `Redaction.NoSecretSurvivesExactlyWhen` is exact for
  lists of values that are clear or stand inside the marker, and `Completion.SoleSecretSurvivesExactlyWhen` for
  a single value of any kind. For several values of any kind `Completion.NoSecretIsCompleted` gives a condition on
  pairs of them that is enough.
* "Held for review" does not mean "not queued": replay checks the status once and inserts later, and a verdict does
  not look at the deliveries (src/webhook_doorman/engine.py:487-501, src/webhook_doorman/store/sqlite.py:539-571).
  `Limits.QuarantinedCanHaveDeliveries` reaches a quarantined event with a delivery, and
  `Holding.HoldBreaksExactlyWhen` names the two kinds of step that make one.
* "Delivered is final" needs every `mark_*` to fail as a whole; each is several autocommit statements
  (src/webhook_doorman/store/sqlite.py:417-493). `Safety.SettledRowChangesExactlyWhen` names the one step that
  breaks it, `Safety.SettledIsFinal` counts it over whole runs, `Limits.DeliveredCanBecomeExhausted` reaches it.
* A populated file whose schema is current but whose version reads 0 is taken for version 1 and can no longer
  be opened (src/webhook_doorman/store/sqlite.py:218-222): `Migration.UnversionedFreshFileIsStuck`.

## Model

| member | source | states |
|---|---|---|
| Invariant.StepKeeps | src/webhook_doorman/engine.py:527-573 | Every step of every interleaving, with exceptions, crashes and starts, keeps the invariant: whole references, unique keys, an attempt left for every unsettled row, every row in flight owned by a handler, and every handler's snapshot current. |
| Invariant.ReachableIsInv | src/webhook_doorman/engine.py:87-111 | The invariant holds in every state of every run from the empty database. |
| Invariant.StepEvolves | src/webhook_doorman/store/sqlite.py:280-583 | No step moves the tables further than allowed: ids are fresh, rows outside the step's own stay as they are, `filtered` is neither gained nor lost, an event leaves only with everything settled. |
| Integrity.InsertEventKeeps | src/webhook_doorman/store/sqlite.py:280-316 | INSERT OR IGNORE keeps the dedup key unique and every reference whole. |
| Integrity.RecordDetectionKeeps | src/webhook_doorman/store/sqlite.py:539-571 | A verdict changes only the status, score and quarantine time of one event, and a quarantined event has its time. |
| Integrity.ReleaseEventKeeps | src/webhook_doorman/store/sqlite.py:573-583 | A release touches nothing but the status and quarantine time of the event. |
| Integrity.InsertAllRow | src/webhook_doorman/store/sqlite.py:318-331 | The inserted rows are one pending row per listed sink, in listed order with consecutive ids; every other row stands. |
| Integrity.UpdateKeeps | src/webhook_doorman/store/sqlite.py:417-466 | The unguarded UPDATE of a `mark_*` keeps the tables whole when an attempt is left for a row that becomes pending again. |
| Integrity.SweepEventsKeeps | src/webhook_doorman/store/sqlite.py:687-709 | The sweep with its cascades leaves no dangling delivery or dead-letter row and takes no unsettled delivery. |
| Safety.ReferencesStayWhole | src/webhook_doorman/store/sqlite.py:621-662 | In every reachable state the inner joins of list_dlq drop no row, each delivery has its event, and a delivery about to be sent finds its event. |
| Progress.RequestsCanGoOn | src/webhook_doorman/engine.py:87-111 | A request can always take its next statement or fail, a new one can begin, a running process can crash, and a stopped one can start with any configuration. |
| Progress.WorkerCanGoOn | src/webhook_doorman/engine.py:527-573 | Whatever the sinks answer: without a batch one can be claimed, a handler at work can be moved or raise, and once none is at work one that raised can be recovered or the batch ends. |
| Progress.MovesRunOut | src/webhook_doorman/engine.py:527-573 | Each move of a handler, its failure and recovery included, uses up one of at most 16, and no other step gives one back while the batch lasts, so every batch ends. |
| Safety.LeavesOnlyBySweep | src/webhook_doorman/store/sqlite.py:687-709 | The only step that removes a delivery is the sweep of an event none of whose deliveries is unsettled. |
| Safety.NoDeliveryIsLost | src/webhook_doorman/store/sqlite.py:495-513 | Over any stretch of any run, with crashes and restarts, an inserted delivery is still there for the same event and sink, or was swept with its settled event. |
| Safety.StartLeavesEverythingDue | src/webhook_doorman/store/sqlite.py:495-513 | After start() every unsettled row is pending and due with its attempt unchanged, and settled rows are untouched. |
| Safety.SettledRowChangesExactlyWhen | src/webhook_doorman/engine.py:546-573 | A settled row is changed by a step if and only if the step is the dead-lettering recovery of a handler whose own `mark_*` had already written. |
| Safety.SettledIsFinal | src/webhook_doorman/store/sqlite.py:417-493 | In every run, with crashes, restarts and store faults: a settled row that is still stored is unchanged if and only if no recovery has dead-lettered it once more in between; each such recovery costs one attempt and leaves it exhausted. |
| Safety.SettledIsFinalWithoutLateFaults | src/webhook_doorman/store/sqlite.py:417-493 | So a settled row never changes unless an exception strikes its own `mark_*` after the first statement, on the last attempt. |
| Safety.VerdictWithholds | src/webhook_doorman/engine.py:293-394 | A verdict on an undispatched event withholds it if and only if the configured policy says so. |
| Safety.WithheldExactlyUntilReleased | src/webhook_doorman/engine.py:434-464 | Each step leaves a withheld event withheld with the same status, if and only if it is not a release that succeeds. |
| Safety.WithholdingIsSticky | src/webhook_doorman/engine.py:487-501 | Over a run, a quarantined or dropped event without deliveries and without a replay past its check stays so until swept or released. |
| Safety.WithheldExactlyWhenNothingCanQueue | src/webhook_doorman/engine.py:487-501 | A running quarantined or dropped event without deliveries is safe from every step that can come next if and only if no replay of it is past its check. |
| Safety.ReplayInFlightGetsThrough | src/webhook_doorman/engine.py:487-501 | A replay past its check has a next step that queues the event, whatever its status is by then, and leaves the status alone. |
| Holding.HoldBreaksExactlyWhen | src/webhook_doorman/engine.py:481-503 | If a quarantined (or dropped) event has no deliveries before a step, it still has none after it, or no longer has that status, if and only if the step is neither that verdict on a `received` event already queued nor a row of a replay for an event that has that status by now. |
| Holding.HoldIsKeptExactlyWhen | src/webhook_doorman/engine.py:293-394 | From the start of any run: up to any point the event has never been quarantined (or dropped) with deliveries if and only if no such step has been taken. |
| Safety.DroppedIsForGood | src/webhook_doorman/engine.py:63-65 | A dropped event without deliveries and without a replay past its check is never dispatched and never changes status, under any interleaving. |
| Safety.FilteredNeverGetsADelivery | src/webhook_doorman/engine.py:487-495 | An event its source's filter refused never has a delivery, replay included. |
| Safety.FirstDispatchIsWhole | src/webhook_doorman/store/sqlite.py:333-364 | enqueue_first_deliveries inserts one row per listed sink in order and nothing else of the event exists, or it changes nothing. |
| Safety.FirstDispatchAtMostOnce | src/webhook_doorman/store/sqlite.py:333-364 | Of all ingests, resumed redeliveries and releases of an event over a run, at most one inserts anything. |
| RollUp.RollUpIsConfluent | src/webhook_doorman/store/sqlite.py:717-744 | For every interleaving, with crashes, restarts and exceptions: once all deliveries of an event are settled and no handler is mid-settle, it is `failed` if and only if a delivery is exhausted, else `dispatched`, provided no step has lost its status since the run began or since the last roll-up of it that got through. |
| RollUp.StatusLostExactlyWhen | src/webhook_doorman/store/sqlite.py:717-744 | Each step leaves a right status right if and only if it does not stop, by a crash or an exception, the last handler that would have written it, after the event's last delivery settled and before a status that is not yet right was written. |
| RollUp.WritingMakesRight | src/webhook_doorman/store/sqlite.py:741-744 | A roll-up that gets through makes the status right, whatever was interrupted before. |
| RollUp.StepKeepsCounts | src/webhook_doorman/engine.py:527-573 | Every step, interruptions included, keeps: a handler past its count of unsettled rows is right about them, and while one handler recovers every other is idle. |
| RollUp.CountedEventStands | src/webhook_doorman/engine.py:527-544 | Once a handler has found nothing unsettled, no sibling of its batch changes what it has counted. |
| Draining.WorkNeverGrows | src/webhook_doorman/engine.py:681-716 | Without new rows no step adds to the sum of attempts still to be had, and each handled claim lowers it. |
| Draining.DrainingIsBounded | src/webhook_doorman/engine.py:527-544 | A stretch of a run that queues nothing handles at most as many claims as there was work at its beginning, through crashes and restarts, whatever the sinks answer. |
| Draining.SnapshotIsCurrent | src/webhook_doorman/engine.py:583-641 | Until its handler writes, a claimed row is in flight with the attempt of the snapshot, and below max_attempts. |
| Draining.AttemptStep | src/webhook_doorman/engine.py:681-736 | The attempt column moves by one with a handled claim, by one with a recovery that dead-letters a settled row once more, and never otherwise. |
| Draining.AttemptsAreHandledClaims | src/webhook_doorman/engine.py:681-736 | In every run, store faults included: no delivery is handled more than max_attempts times, one handled that often is settled, and the attempt column is the number of handled claims plus that of repeated dead-letterings, of which an unsettled row has none. |
| Draining.TotalWaitIsBounded | src/webhook_doorman/engine.py:765-787 | In every run, store faults included, the waits scheduled over a delivery's life total at most (max_attempts - 1) * max_backoff * (1 + jitter). |
| Draining.WaitingEnds | src/webhook_doorman/store/sqlite.py:391-415 | Between batches of any run, an unsettled row whose time has come is due if and only if it is pending, and one that is not due stays in flight because its recovery failed. |
| Draining.BatchLeavesNothingInFlight | src/webhook_doorman/engine.py:527-573 | When run_once returns, a claimed row is in flight if and only if no write of its handler or recovery succeeded. |
| Accounting.AttemptAccountingAgrees | src/webhook_doorman/engine.py:583-641 | Between the batches of a smooth lifetime, per sink: the sum of delivery_attempts_total over outcomes, the latency histogram's count and the increments of the attempt column are the same number. |
| Accounting.StepBalances | src/webhook_doorman/engine.py:681-736 | One handler step changes what is written but not yet counted by exactly what it writes and counts, and for no other sink. |
| Answers.AnswerIsObeyed | src/webhook_doorman/engine.py:600-641 | On the machine, over any run, from the answer to the write of the same handler: an accepted delivery is delivered, a refused one exhausted; one that may be tried again is exhausted if and only if this was attempt max_attempts, and otherwise pending and due exactly the delay of this attempt and its `Retry-After` after the write; one attempt more in every case. |
| Answers.UnreachableIsDeadLettered | src/webhook_doorman/engine.py:583-595 | A claimed delivery is sent if and only if its event is stored and its sink available; otherwise its handler dead-letters it unsent. |
| Answers.RecoveryIsObeyed | src/webhook_doorman/engine.py:546-573 | A handler that raised before it wrote is recovered like a failed attempt: exhausted on the last one, otherwise pending and due after the backoff of this attempt. |
| Answers.AnswerIsCounted | src/webhook_doorman/engine.py:600-716 | A refusal counts as `permanent`; an answer that may be tried again as `exhausted` if and only if this was the last attempt, else as `retry`; nothing else of the outcomes moves, for this sink or another. |
| Answers.DeliveryIsCounted | src/webhook_doorman/engine.py:623-641 | An accepted attempt counts as `delivered`, with one latency, exactly when mark_delivered has come to its end, and nothing else moves. |
| Answers.RecoveryIsCounted | src/webhook_doorman/engine.py:556-568 | A recovery counts once, as `exhausted` on the last attempt and as `error` before it. |
| Observing.HistoryIsCounted | src/webhook_doorman/engine.py:671-679 | Since its start a process has recorded as many latencies of a sink as the model's counter says. |
| Observing.HistogramAgrees | src/webhook_doorman/metrics.py:192-211 | Between the batches of a smooth lifetime the `+Inf` count of a sink's latency histogram is the sum of delivery_attempts_total over outcomes and the number of attempt increments. |
| Limits.DeliveredCanBecomeExhausted | src/webhook_doorman/engine.py:546-573 | A reachable state with a delivered row from which a reachable state has that row exhausted: mark_delivered raises after its first statement on the last attempt. |
| Limits.CrashLosesTheRollUp | src/webhook_doorman/store/sqlite.py:717-744 | A reachable running state, with no request and no handler at work, whose event is still `received` though its only delivery is delivered: a crash came before the status write. |
| Limits.QuarantinedCanHaveDeliveries | src/webhook_doorman/engine.py:487-501 | A reachable quarantined event with a delivery: a replay that passed its status check while the event was being screened. |
| Store.ClaimExists | src/webhook_doorman/store/sqlite.py:391-415 | Whatever is due, a batch of earliest due rows within the limit exists, and it is empty only when nothing is due. |
| Store.SqliteStore.RecordEvent | src/webhook_doorman/store/sqlite.py:280-316 | A taken key is a duplicate: its row is returned and nothing changes. Otherwise one row with a new id holds source, delivery id, type, body, received time and sinks of the request, `filtered` or `received`, with no verdict, and no other row changes. |
| Store.SqliteStore.EnqueueDeliveries | src/webhook_doorman/store/sqlite.py:318-331 | One row per sink in order, pending, untried and due at once, the new ids returned; nothing when the event is gone. |
| Store.SqliteStore.EnqueueFirstDeliveries | src/webhook_doorman/store/sqlite.py:333-364 | Inserts if and only if there are sinks and the event is stored, `received` and without deliveries; then its deliveries are exactly the listed sinks, in order, pending and untried, and no further call for the event can insert. Otherwise nothing changes. |
| Store.SqliteStore.PickEarliest | src/webhook_doorman/store/sqlite.py:391-415 | As many of the given rows as the limit allows, none due later than one left behind. |
| Store.SqliteStore.ClaimDueDeliveries | src/webhook_doorman/store/sqlite.py:391-415 | Takes as many due rows as the limit allows; a due row is left behind only by a full batch of rows that sort no later, those without a time first; exactly the taken rows are put in flight and nothing else of any row changes. |
| Store.SqliteStore.ReleaseClaim | src/webhook_doorman/store/sqlite.py:374-389 | A row still in flight, and no other, waits again with one attempt more, is due exactly from the given time on, and no other row changes; otherwise nothing changes. |
| Store.SqliteStore.SettleEventFor | src/webhook_doorman/store/sqlite.py:717-744 | The event of the delivery takes the status its deliveries call for exactly when none of them is unsettled; no other event and no delivery changes. |
| Store.SettleRollsUp | src/webhook_doorman/store/sqlite.py:717-744 | Once every delivery of the event is delivered or exhausted it is `failed` if one is exhausted and else `dispatched`; until then, and for every other event, nothing changes. |
| Store.SqliteStore.MarkDelivered | src/webhook_doorman/store/sqlite.py:417-435 | That row is delivered with one attempt more and never due again, no other row and no dead-letter row changes, and its event is rolled up exactly when nothing of it is unsettled; a delivery that is gone changes nothing. |
| Store.DeliveredRollsUp | src/webhook_doorman/store/sqlite.py:417-435 | Marking a stored row delivered touches that row and its event's status alone, and the status is the one all deliveries call for exactly when nothing is unsettled. |
| Store.SqliteStore.MarkRetry | src/webhook_doorman/store/sqlite.py:437-462 | That row waits with one attempt more and is due exactly from the given time on; no other row, no event and no dead-letter row changes. |
| Store.SqliteStore.MarkExhausted | src/webhook_doorman/store/sqlite.py:464-493 | That row is exhausted with one attempt more, one dead-letter row is added, and the event is `failed` once nothing of it is unsettled; if the delivery is gone the call fails and changes nothing. |
| Store.ExhaustedRollsUp | src/webhook_doorman/store/sqlite.py:464-493 | Dead-lettering a stored row adds one dead-letter row, and makes the event `failed` once nothing of it is unsettled. |
| Store.SqliteStore.RequeueIncomplete | src/webhook_doorman/store/sqlite.py:495-513 | Every row that is neither delivered nor exhausted becomes pending and due now with its attempt kept, no other row changes, and their number is returned. |
| Store.SqliteStore.RecordVerdict | src/webhook_doorman/store/sqlite.py:539-571 | A verdict on a `received` event stores its status, score and quarantine time; on any other it changes nothing; after one that withholds, no first dispatch and no later verdict can touch the event. |
| Store.SqliteStore.Release | src/webhook_doorman/store/sqlite.py:573-583 | True if and only if the event is quarantined, which is then `received` with no quarantine time; no further release can succeed, and no other event changes. |
| Store.SqliteStore.Sweep | src/webhook_doorman/store/sqlite.py:687-709 | An event leaves if and only if it is old and nothing of it is unsettled, a delivery if and only if its event leaves, a dead-letter row if and only if it is old or its delivery leaves; what stays is unchanged. |
| Store.SweepRemovesExactly | src/webhook_doorman/store/sqlite.py:687-709 | The two deletes with their cascades remove exactly those rows. |
| Engine.Engine.Screen | src/webhook_doorman/engine.py:293-394 | Withheld if and only if the score reaches the threshold under a policy other than annotate, or the detector is out under quarantine on error; a withheld event has the policy's status and can no longer be dispatched first; the stored score is the one given, none after an outage, and the quarantine time is set if and only if it is quarantined; no other event and no delivery changes. |
| Engine.Engine.Resume | src/webhook_doorman/engine.py:241-291 | An answer if and only if the event is `received`, has no deliveries and at least one stored sink that a route of its source still names and admits it to; then it is withheld by the verdict, or queued to exactly those of its stored sinks, in stored order. |
| Engine.Engine.Ingest | src/webhook_doorman/engine.py:152-239 | A duplicate is deduplicated, withheld or accepted as resumed, depending on whether there is something to resume and on the verdict; a new event is filtered, ignored, withheld or accepted, depending on its filter, its sinks and the verdict; an accepted new event is queued to exactly its sinks, and nothing is queued under any other answer. |
| Engine.Engine.Release | src/webhook_doorman/engine.py:434-479 | Missing, not quarantined, no route or queued, each exactly when; a released event is `received` and, if it had no deliveries, is queued to the names of exactly the routes of its source that admit its stored type and body, in route order, which are also the answer. |
| Engine.Engine.Replay | src/webhook_doorman/engine.py:466-503 | Missing, refused (dropped, quarantined or filtered), no route or queued, each exactly when; queued means one new pending row for each route of the source that admits the stored type and body, in route order, and nothing else changed. |
| Engine.Engine.DeliverOnce | src/webhook_doorman/engine.py:583-641 | One delivery from the sink's answer to the end of its `mark_*`: delivered if accepted, exhausted if refused, unsent or out of attempts, else pending until the delay of this attempt is over; the event is rolled up if the row settled, the dead-letter queue grows exactly if it is exhausted, and no other row moves. |
| Engine.Engine.RunOnce | src/webhook_doorman/engine.py:527-544 | A legal batch is claimed and each of its rows taken through one attempt as its own answer says: none in flight afterwards, one attempt more, no other row changed. |
| Engine.IngestTouchesOnly | src/webhook_doorman/engine.py:152-291 | An ingest, resumed or not, changes no other event, no delivery that was there and no dead-letter row, and every new delivery is its own event's. |
| Engine.ReleaseTouchesOnly | src/webhook_doorman/engine.py:434-464 | The same of a release. |
| Redelivery.RedeliveryTakesCare | src/webhook_doorman/engine.py:152-291 | Over any run and any interleaving with handlers, claims, sweeps and other requests, on this event too: once a redelivery of a stored admitted event has come to its end, the event is swept, has deliveries, is withheld, or none of its sinks is routed. |
| Redelivery.RedeliveryCompletes | src/webhook_doorman/engine.py:241-291 | If the event was interrupted when the redelivery began and no other request screens, queues or replays it meanwhile, then, whatever else runs in between: unless the event was swept, the last statement leaves it with exactly the sinks it was meant for that are still routed, queued once each in order, after a verdict that let it through; or withheld by the verdict without deliveries; or the tables unchanged because none is routed. |
| Redelivery.WantedIsKept | src/webhook_doorman/engine.py:241-280 | What a redelivery queues are the stored sinks which a route of the event's source still names and admits it to, in stored order. |
| Redelivery.StepLeavesInterrupted | src/webhook_doorman/engine.py:152-291 | Every step that leaves the redelivery alive, except another request's screening, queueing or replay of the event, leaves an interrupted event interrupted or sweeps it. |
| Redelivery.StepAdvances | src/webhook_doorman/engine.py:241-291 | Every step that leaves the redelivery alive leaves it at a stage for the stored event, with the sinks it was meant for that are still routed, unless the event is swept. |
| Statements.ResumeGoesOn | src/webhook_doorman/engine.py:241-280 | Under any interleaving: a resumed dispatch goes past its first check if and only if the event is `received` with stored sinks, and past its second if and only if it has no deliveries and a stored sink is still routed; then it goes on with exactly those. |
| Statements.VerdictGoesOn | src/webhook_doorman/engine.py:350-378 | Under any interleaving: a request goes on to queue its event if and only if the policy lets the verdict through, and the verdict is stored, with score and quarantine time, if and only if the event is still `received`. |
| Statements.ReleaseGoesOn | src/webhook_doorman/engine.py:448-464 | Of several releases past their check, the one whose swap finds the event quarantined makes it `received` and goes on to queue it to exactly its routes; any other changes nothing and ends. |
| Statements.ReplayGoesOn | src/webhook_doorman/engine.py:481-503 | A replay goes on if and only if it finds the event stored, neither dropped, quarantined nor filtered, and routed somewhere; then with exactly its routes. |
| Redelivery.CrashedIngestIsCompleted | src/webhook_doorman/engine.py:241-291 | Over any run: after the statement that stored an admitted event, whatever follows (a crash at once or between any two later statements, a crash after a withholding verdict, restarts with another configuration, sweeps, other requests), one redelivery with its key, run with no step of anything in between, finds it queued or withheld and leaves it so, or queues exactly the sinks it was meant for that are still routed, once each in order, or withholds it, or leaves it because none is routed. Only the key of the redelivered request matters. |
| Redelivery.StoredEventIsAccountedFor | src/webhook_doorman/engine.py:152-239 | At every later point of every run an admitted event is swept, has deliveries, is withheld, or is exactly what an interrupted ingest leaves behind. |
| Redelivery.StepKeepsDispatched | src/webhook_doorman/store/sqlite.py:717-744 | Every step keeps: an event with the status of a roll-up has deliveries. |
| Redelivery.AloneIsARun | src/webhook_doorman/engine.py:152-239 | A request run to its end with nothing in between is a run of the machine, and its tables are those of the lone function. |
| Engine.RedeliveryCompletesIngest | src/webhook_doorman/engine.py:241-291 | For tables in which an event is stored, `received` and without deliveries: one redelivery withholds it, or queues exactly the stored sinks still routed, once each in order, or changes nothing because none is left. |
| Engine.OnlyTheStoredEventCounts | src/webhook_doorman/engine.py:241-291 | Two redeliveries with the same key do the same, whatever their bodies, sinks and filters. |
| Engine.SecondRedeliveryIsQuiet | src/webhook_doorman/engine.py:241-291 | After a redelivery that withheld or queued, a further one changes nothing. |
| Engine.UninterruptedIngest | src/webhook_doorman/engine.py:152-239 | A new event is filtered or ignored without deliveries, or withheld, or queued to exactly its sinks. |
| Engine.LoneIngest | src/webhook_doorman/engine.py:152-239 | The machine's statements of one ingest, run alone, are the Ingest method. |
| Engine.LoneRelease | src/webhook_doorman/engine.py:434-464 | The machine's statements of one release, run alone, are the Release method. |
| Statements.LoneReplay | src/webhook_doorman/engine.py:481-503 | The machine's statements of one replay, run alone, are the Replay method. |
| Statements.LoneSweep | src/webhook_doorman/store/sqlite.py:687-709 | The machine's two statements of one sweep, run alone, remove exactly the rows the Sweep method removes. |
| Engine.LoneDelivery | src/webhook_doorman/engine.py:583-641 | The machine's statements of one handler, run alone, are the DeliverOnce method. |
| Settings.RoutedInOrder | src/webhook_doorman/filtering.py:183-201 | The admitted names are those of exactly the admitting routes, one per route, in route order. |
| Settings.SinksForIsRouting | src/webhook_doorman/engine.py:466-479 | A stored event goes to the names of exactly the routes of its source that admit its stored type and body, in route order, and nowhere if its source is not configured. |
| Settings.RoutingIsUnique | src/webhook_doorman/engine.py:466-479 | The configured routes leave no choice of sinks or order. |
| Settings.StillRoutedInOrder | src/webhook_doorman/engine.py:273 | The kept sinks are exactly the stored ones that a current route still names, as often and in the order they were stored. |
| Settings.StillRoutedIsKept | src/webhook_doorman/engine.py:241-280 | What is kept of the stored sinks is exactly those to which a route of the source still takes the stored event, in stored order. |
| Settings.KeptIsUnique | src/webhook_doorman/engine.py:241-280 | Stored sinks and routes leave no choice of what is kept. |
| Settings.StatusAfter | src/webhook_doorman/engine.py:293-394 | `dropped` if and only if a score reaches the threshold under drop; `quarantined` if and only if it does under quarantine, or the detector is out under quarantine on error; otherwise `received`. |
| Retry.ParseRetryAfter | src/webhook_doorman/sinks/base.py:225-266 | A wait is read if and only if the header is a date or a finite non-negative number: the number itself, or the time left until the date, zero when it has passed. |
| Retry.DelayIsBounded | src/webhook_doorman/engine.py:765-787 | For any header, attempt and draw the delay lies in [0, max_backoff * (1 + jitter)]. |
| Retry.RetryAfterIsHonoured | src/webhook_doorman/engine.py:782-787 | Without jitter a `Retry-After` wait is what is waited, whatever the attempt, up to the ceiling; a negative one is no wait. |
| Retry.JitterSpreads | src/webhook_doorman/engine.py:854-857 | A draw multiplies the delay of draw 0 by one plus that fraction of the jitter, never below zero. |
| Retry.FirstBackoffIsTheBase | src/webhook_doorman/engine.py:765-797 | The first wait of the curve is the configured base, up to the ceiling. |
| Retry.JitterStaysBelow | src/webhook_doorman/engine.py:854-857 | Jitter keeps a delay non-negative and below the jittered ceiling. |
| Retry.BackoffDoubles | src/webhook_doorman/engine.py:765-797 | At draw 0 each wait of the curve is twice the last, up to the ceiling. |
| Paging.Effective | src/webhook_doorman/app.py:361 | A limit in 1 to 100 is kept, a smaller one becomes 1 and a larger one 100. |
| Paging.PageIsExact | src/webhook_doorman/store/sqlite.py:621-662 | A page is the largest visible ids below the cursor, in decreasing order, up to the limit. |
| Paging.CursorExactlyWhen | src/webhook_doorman/app.py:361-368 | No cursor is offered if and only if fewer rows are left than were asked for; otherwise it is the last id of the page. |
| Paging.FollowDecreases | src/webhook_doorman/app.py:361-368 | Following the cursor gives strictly decreasing ids, all of which were there. |
| Paging.FollowTerminates | src/webhook_doorman/app.py:361-368 | The walk ends after at most `below + 1` pages. |
| Paging.FollowSkipsNothing | src/webhook_doorman/app.py:361-368 | A finished walk has returned every row that was there at each page read. |
| Paging.PagingIsExact | src/webhook_doorman/app.py:384-420 | The three together, for any limit and any run of the machine between the pages, for the queue and for held events alike. |
| Paging.DlqPagingIsExact | src/webhook_doorman/app.py:339-382 | Every dead-letter row stored throughout is returned, since the joins hide none. |
| Paging.HeldPagingIsExact | src/webhook_doorman/app.py:384-420 | A finished walk over the held events has returned every event quarantined throughout, and only events quarantined when some page was read. |
| Paging.EveryRowIsBelowTheCounter | src/webhook_doorman/store/sqlite.py:585-662 | A first page without a cursor reads above every row, and every held event has its quarantine time. |
| Migration.Connection.ApplySchema | src/webhook_doorman/store/sqlite.py:193-248 | Fresh, newer, current or migrated one transaction per version; a failing statement rolls its own transaction back and stops there. |
| Migration.MigrationReachesFresh | src/webhook_doorman/store/sqlite.py:104-135 | From either older schema the migrated file has the fresh schema, every row and every value kept, and defaults in the new columns. |
| Migration.MigrationIsCrashSafe | src/webhook_doorman/store/sqlite.py:230-248 | With any number of crashes between any two statements, the committed file is always the original with exactly the transactions up to its version, each applied once; its schema matches, no row is lost, the version never goes back. |
| Migration.NewerIsUntouched | src/webhook_doorman/store/sqlite.py:224-231 | A file newer than the build is refused and never written. |
| Migration.MigrationSucceedsExactlyWhen | src/webhook_doorman/store/sqlite.py:232-248 | For any file whatever, the migration goes through if and only if none of the columns to add is there already. |
| Migration.UnversionedFreshFileIsStuck | src/webhook_doorman/store/sqlite.py:211-222 | A file with the fresh schema and version 0, which an interrupted creation leaves, is refused by every later open. |
| Redaction.Redactable | src/webhook_doorman/redaction.py:54-60 | Each secret of at least 8 characters exactly once, longer ones first. |
| Text.ReplaceAbsent | src/webhook_doorman/redaction.py:63-67 | A text in which the pattern does not occur comes back as it was. |
| Completion.ReplaceBehindLead | src/webhook_doorman/redaction.py:63-67 | Behind a lead in which it does not begin earlier, the pattern becomes the marker, and what follows is replaced on its own. With the line above this determines every replacement. |
| Redaction.ReplaceCreatesNothing | src/webhook_doorman/redaction.py:63-67 | A value that cannot overlap the marker occurs after a replacement only if it occurred before and is not the replaced one. |
| Redaction.NoSecretSurvives | src/webhook_doorman/redaction.py:63-67 | In whatever order the values stand, no value that cannot overlap the marker is left in any text. |
| Redaction.NoSecretSurvivesExactlyWhen | src/webhook_doorman/redaction.py:54-67 | For values each of which cannot overlap the marker or stands inside it, every text is freed of all of them if and only if none stands inside it. |
| Completion.SoleSecretSurvivesExactlyWhen | src/webhook_doorman/redaction.py:63-67 | For one secret, whatever characters it holds: every text is freed of it if and only if the marker cannot complete it, that is, laid over the marker it agrees nowhere when it starts inside the marker, and when it starts before it only behind a lead in which the secret itself would begin earlier. |
| Completion.NoSecretIsCompleted | src/webhook_doorman/redaction.py:54-67 | For any list of non-empty secrets in any order: every text is freed of all of them if no marker, put in for one of them, can complete that one or one replaced before it. |
| Completion.ClearIsNeverCompleted | src/webhook_doorman/redaction.py:63-67 | A value that cannot overlap the marker meets that condition beside any other. |
| Completion.RepetitiveSecretIsFreed | src/webhook_doorman/redaction.py:63-67 | The secret `<z<z<z<z<` overlaps an edge of the marker and is still never left behind. |
| Redaction.NoAngleFreeSecretSurvivesExactlyWhen | src/webhook_doorman/redaction.py:54-67 | So for secrets without angle brackets: if and only if `redacted` is not one of them. |
| Redaction.SurvivesItsOwnMarker | src/webhook_doorman/redaction.py:63-67 | A value that stands inside the marker is still in the text after redacting the value itself, whatever other values there are. |
| Redaction.ClearExactlyWhen | src/webhook_doorman/redaction.py:31 | An angle-free secret of at least 8 characters cannot overlap the marker if and only if it is not `redacted`. |
| Redaction.AngleSecretCanSurvive | src/webhook_doorman/redaction.py:63-67 | The secret `<redacte` is still in the text after redaction. |
| Redaction.RedactionIsIdempotent | src/webhook_doorman/redaction.py:63-67 | A second redaction is the identity. |
| Redaction.FreeTextIsUnchanged | src/webhook_doorman/redaction.py:63-67 | A text without secrets is untouched. |
| Redaction.DelimitedSecretIsReplacedWhole | src/webhook_doorman/redaction.py:54-60 | Longest first: a secret between two characters no secret contains becomes one marker, even if other secrets are parts of it, and its surroundings are redacted on their own. |
| Redaction.RedactText | src/webhook_doorman/redaction.py:63-67 | The loop is the chain, leaves no such secret, and leaves a text without secrets alone. |
| JsonRedaction.NoSecretInAnyString | src/webhook_doorman/redaction.py:115-125 | No key and no string leaf of a walked value holds any of the secrets that cannot overlap the marker, whatever the others are, and its objects have distinct keys. |
| JsonRedaction.WalkIsRedaction | src/webhook_doorman/redaction.py:115-125 | Arrays keep their length and order, each string is redacted, an object has exactly the redacted keys with the redacted value of the last member whose key became it, and everything else is as it was. |
| JsonRedaction.KeysStayInOrder | src/webhook_doorman/redaction.py:121-122 | The redacted keys stand in the order in which they first came up. |
| Json.PutKeepsPlaces | src/webhook_doorman/redaction.py:121-122 | Assigning a key of a dict that is there keeps its place and every other entry; a new key goes to the end. |
| JsonRedaction.LastMemberWins | src/webhook_doorman/redaction.py:121-122 | Under each redacted key stands the redacted value of the last member whose key became it. |
| JsonRedaction.JsonRedactionIsIdempotent | src/webhook_doorman/redaction.py:115-125 | Walking a walked value changes nothing, keys included. |
| JsonRedaction.RedactJsonLeavesNoSecret | src/webhook_doorman/redaction.py:102-112 | The whole call leaves none of the secrets that cannot overlap the marker, whatever the others are, and hands back a value without secrets as it is. |
| Escaping.ChainIsOnePass | src/webhook_doorman/templating.py:82-95 | A chain of one-character replacements acts on each character by itself. |
| Escaping.SlackChainIsOnePass | src/webhook_doorman/templating.py:98-114 | The Slack chain is one left-to-right pass; no ampersand is escaped twice. |
| Escaping.SlackRoundTrip | src/webhook_doorman/templating.py:98-114 | One pass over the three entities undoes the Slack escaping. |
| Escaping.SlackEscapeIsInjective | src/webhook_doorman/templating.py:98-114 | Two values escape alike if and only if they are equal. |
| Escaping.SlackOutputIsInert | src/webhook_doorman/templating.py:98-114 | No angle bracket is left and every ampersand starts an entity. |
| Escaping.MarkdownChainIsOnePass | src/webhook_doorman/templating.py:89-95 | The Markdown chain is one left-to-right pass. |
| Escaping.MarkdownOutputIsInert | src/webhook_doorman/templating.py:117-126 | Every bracket is preceded by an odd run of backslashes and no angle bracket is left, whatever backslashes the value held. |
| Escaping.MarkdownMergesOnlyEntities | src/webhook_doorman/templating.py:84-95 | Two values escape alike if and only if they differ only in spelling `<` and `>` as entities. |
| Escaping.SlackEscape | src/webhook_doorman/templating.py:98-114 | The loop gives the one-pass result, which unescapes to the value and is inert. |
| Escaping.MarkdownEscape | src/webhook_doorman/templating.py:117-126 | The loop gives the one-pass result, which unescapes to the value with entities and is inert. |
| Labels.KeyIsCanonical | src/webhook_doorman/metrics.py:138-140 | Two label lists have the same key if and only if they are the same set. |
| Labels.KeyIsSorted | src/webhook_doorman/metrics.py:138-140 | A key lists the given labels in the order of their names. |
| Labels.LessExactlyWhen | src/webhook_doorman/metrics.py:138-140 | That order is the one of Python strings: the first differing character decides, and a proper prefix comes first. |
| Labels.LabelChainIsOnePass | src/webhook_doorman/metrics.py:143-150 | The three replacements are one left-to-right pass. |
| Labels.LineRoundTrip | src/webhook_doorman/metrics.py:153-157 | Reading a rendered sample line by the exposition format gives back its name, labels and value, whatever the label values hold. |
| Labels.DistinctSeriesRenderApart | src/webhook_doorman/metrics.py:138-157 | Two label sets render alike if and only if they are the same set. |
| Labels.RenderedLabelsAreOneLine | src/webhook_doorman/metrics.py:143-157 | No label value breaks the line. |
| Metrics.Registry.Increment | src/webhook_doorman/metrics.py:187-190 | The counter of that series, and of no other, is the sum of all amounts so far. |
| Metrics.Registry.Observe | src/webhook_doorman/metrics.py:201-211 | The counts and sum of that series, and of no other, are those of all observations so far. |
| Metrics.CountOne | src/webhook_doorman/metrics.py:208-211 | Every bucket the observation fits in, and the last one, count one more. |
| Metrics.BucketsAreCumulative | src/webhook_doorman/metrics.py:66-70 | Bucket counts never decrease and end in the number of observations. |
| Metrics.BucketsCount | src/webhook_doorman/metrics.py:66-70 | The stored counts are those of the observations up to 50 ms, 100 ms, 250 ms, 500 ms, 1 s, 2.5 s, 5 s and 10 s, and of all of them. |
| Metrics.DifferenceIsTheBand | src/webhook_doorman/metrics.py:201-211 | The difference of two buckets is the number of observations between their bounds. |
| Utf8.DecodeAfterChar | src/webhook_doorman/filtering.py:156-159 | The decoder reads an encoded character and goes on behind it. |
| Utf8.CutCharVanishes | src/webhook_doorman/filtering.py:144-159 | A character cut short decodes to nothing. |
| Utf8.Utf8RoundTrip | src/webhook_doorman/filtering.py:144-159 | Decoding an encoded text gives the text back. |
| Truncation.CutDecodesToLongestFit | src/webhook_doorman/filtering.py:156-159 | Cutting the bytes and decoding leniently gives the longest character prefix that fits. |
| Truncation.FitsExactlyWhen | src/webhook_doorman/filtering.py:144-159 | A prefix fits the budget if and only if it is no longer than that one. |
| Truncation.TruncateTextIsExact | src/webhook_doorman/filtering.py:144-159 | Within the budget the text itself, otherwise exactly the longest fitting prefix and the marker. |
| Truncation.TruncatedSizeIsBounded | src/webhook_doorman/filtering.py:144-159 | The result has at most the budget plus the marker's 14 bytes. |
| Truncation.IdempotentExactlyWhen | src/webhook_doorman/filtering.py:144-159 | Truncating twice is truncating once if and only if the text fitted or the cut left fewer than 3 bytes of room. |
| Truncation.TruncateIsExact | src/webhook_doorman/filtering.py:162-180 | Structure and keys are kept and every string is truncated exactly; no limit changes nothing. |
| Fencing.StripFenceTags | src/webhook_doorman/fencing.py:83-115 | By the grammar: a text that at most three rounds of removal make free of tags comes back as they leave it, brackets kept, unless an opening is left; that one, and a text still changing in the fourth round, comes back with every angle bracket replaced by its lookalike. A tag among text without openings is all that goes. No opening is left, and a text without one is untouched. |
| Fencing.EveryTextPeels | src/webhook_doorman/fencing.py:83-106 | Every text has such a series of rounds. |
| FenceTags.OpensExactlyWhen | src/webhook_doorman/fencing.py:60-78 | The parser finds an opening if and only if the text is `<`, spaces with at most one slash among them, the name in any case, and a space, slash or `>`. |
| FenceTags.TagLengthExactlyWhen | src/webhook_doorman/fencing.py:70-71 | The text begins with a tag of length n if and only if its first n characters are such an opening ended by its first `>`, with at most 512 characters between name and `>`. |
| Fencing.TagIsRemoved | src/webhook_doorman/fencing.py:70-71 | A complete tag after text without brackets is removed, and only it. |
| Fencing.TagAmongPlain | src/webhook_doorman/fencing.py:83-106 | One pass removes a tag from a text without openings, which its removal does not create, and nothing else. |
| Fencing.OpensBeforeTail | src/webhook_doorman/fencing.py:126-130 | Before the closing line, a suffix opens a tag if and only if it did on its own or is an unfinished tag name. |
| Fencing.FenceHolds | src/webhook_doorman/fencing.py:117-130 | A fence tag opens at a position of the fenced text if and only if it is the wrapper's opening, its closing, or an unfinished name that is the very end of the content. |
| Fencing.FenceIsUnambiguousExactlyWhen | src/webhook_doorman/fencing.py:117-130 | The wrapper's tags are the only ones if and only if the content does not end in an unfinished tag name. |
| Fencing.UnfinishedNameSurvives | src/webhook_doorman/fencing.py:117-130 | The content `<untrusted` gives a fenced text with an opening inside. |
| Fencing.PlainTextIsFenced | src/webhook_doorman/fencing.py:117-130 | Plain names and a content without openings give the opening line with source and field, the content, and the closing line. |
| Fencing.CleaningDrops | src/webhook_doorman/fencing.py:112-114 | In an attribute a quote or a backslash vanishes, wherever it stands. |
| Fencing.CleaningKeeps | src/webhook_doorman/fencing.py:112-114 | Where there is none, each newline becomes a space and every other character stays. |
| Fencing.FenceContext | src/webhook_doorman/fencing.py:145-165 | The loop fences the listed fields one after the other. |
| Fencing.FencingTouchesOnlyFields | src/webhook_doorman/fencing.py:145-165 | No key is added or lost, and a key that is not listed keeps its value. |
| Fencing.ListedFieldIsFenced | src/webhook_doorman/fencing.py:133-165 | A listed key that is present ends up fenced, around its own value when it is listed once. |

## Left out

- HTTP, routing, request parsing, verification (HMAC, base64, IP ranges), the sink classes, Jinja, logging, tracing, the command line and YAML loading: I/O, foreign code or settled branch by branch. A sink's answer is an arbitrary choice among delivered, permanent, retryable with or without a delay, and an exception; the mapping of status codes to these (`_classify`) is left out.
- The detector's rules and the filters' `dig` and `evaluate`: a verdict is arbitrary, and a route's filter is an arbitrary function of event type and stored body.
- Columns no statement reads to decide anything: response code, latency, error text, `updated_at`, headers, summary, context, and the JSON of a verdict beyond its score.
- Unicode normalisation: `sanitize` is an arbitrary function before the fence, and its idempotence is not claimed.
- `redact_bytes` and its JSON spellings, and header redaction.
- Lone surrogates in a Python string: a character here is a Unicode scalar value.
- Floating point: delays, scores, histogram sums and times are reals. What `float()` and the HTTP-date parser make of a header is a value of `Retry.Header`.
- Creation of a fresh database is one step; `Migration.UnversionedFreshFileIsStuck` shows what an interruption of it means for later opens.
- `stop()` is a crash: what the shutdown would still finish is not used by any theorem.
- `max_attempts` and the backoff settings are fixed over a run; routes, available sinks and detector policy may change at every start.
- Redaction.NoSecretSurvivesExactlyWhen: of lists of several values it decides those in which each value either cannot overlap the marker or stands inside it. A value that only overlaps an edge of it, such as `abc<red`, is decided exactly when it is the only one (`Completion.SoleSecretSurvivesExactlyWhen`); beside others there is a condition on pairs that is enough (`Completion.NoSecretIsCompleted`), not one that is also necessary.
- Labels.LineRoundTrip: the reader is the format's grammar for one sample line without optional spaces and timestamps, which the renderer never writes.
- Metrics.Registry.Observe: counts are unbounded integers where the code counts in floats.
