# Tracker: verified model

This project models the hard core of the family location tracker and proves properties of it in Dafny:
the geofence evaluator and its debounced state machine, the push accounting and its bounded queue, the
live stream with the map at its other end, the partitioned fix store, and three supporting cores (the
civil calendar behind push timestamps, the app's crossing merge, the vulnerability gate).
`dafny verify dfyconfig.toml` checks all of it.

Code that changes state step by step is modelled by classes and loops whose contracts tie the new state
to a function or relation of the old one (`GeofenceLog.EventLog`, `PushLedger.DeliveryLedger`,
`PushDispatcher.Dispatcher`, `GeofencePlaces.FamilyLog`, `LiveStream.StreamConn`, `PartitionStore.FixStore`,
`CrossingMerge.AlertSurface`, and the loops of `DwellMachine`, `CrossingMerge` and `VulnGate`). What the
source promises is then proved about those functions and about runs of step systems built from them.

| file | what it models |
|---|---|
| `DwellMachine.dfy` | `confirmTransitions`: which readings become enter/exit transitions |
| `GeofenceLog.dfy` | one evaluation: seed read, bounded neighbourhood, idempotent inserts; arrivals in any order |
| `GeofenceReevaluation.dfy` | evaluating again with nothing new stored |
| `GeofenceConcurrency.dfy` | evaluators of one device and Place interleaving, or stopping, at any step |
| `GeofenceReordering.dfy` | late fixes: exactly when the log converges to the batch projection |
| `GeofencePlaces.dfy` | one device against every Place of its family, with evaluations that fail |
| `GeofenceFamily.dfy` | passes of a family against the evaluator of one Place, and whole histories of them |
| `DeliveryLedger.dfy` | the per-endpoint collapse-key accounting |
| `PushSystem.dfy` | classify, offer, take, send, register and close as a step system, with its conservation laws |
| `PushExactness.dfy` | exactly when the ledger's count is exact |
| `Dispatcher.dfy` | the notifier and the queue as objects; each object carries a run of the step system |
| `PushCalls.dfy` | who is notified of what, which account makes room, and what an unclassified delivery is |
| `Presentation.dfy` | the presentation value, its sweep bound and the poll cadence |
| `LiveStream.dfy` | one stream connection: what each poll writes |
| `StreamAgreement.dfy` | the map page as a function of events, and what one poll does to it |
| `StreamSession.dfy` | sessions over a changing family: the map tells the truth |
| `StreamCursor.dfy` | ids, exactly one event per device, and the resume sweep |
| `StreamSilence.dfy` | exactly when a poll speaks of a device, when it is silent, and when it reports an outage |
| `StreamResume.dfy` | coming back after a cut: exactly which positions are missed |
| `Decimal.dfy`, `CivilCalendar.dfy`, `PushTimestamp.dfy` | numbers as text, the day count, the push timestamp |
| `PartitionStore.dfy`, `PartitionLife.dfy` | the fixes table in place, and its whole life |
| `PartitionCalls.dfy` | what one call on it does, in plain numbers, over any catalog |
| `CrossingMerge.dfy` | the merged crossing list and the list of pushes |
| `VulnGate.dfy` | the report fold and the verdict |
| `Options.dfy`, `Sequences.dfy` | a value that may be absent; sequences without repetition |

## What the proofs found

Where code and comments disagree the model follows the code.

- `internal/store/geofence.go:268-270` calls the evaluation idempotent. Evaluating again can append: when a
  late fix has more than 128 later fixes behind it, the first pass stops short and a second one, starting
  from the event just recorded, reads further (`GeofenceReevaluation.ReevaluationCanAppend`).
  `GeofenceReevaluation.SilentExactly` says exactly when it does, and `ReevaluationIsSilent` gives two
  conditions that rule it out.
- `internal/store/geofence.go:54-59` says a count bound is all the evaluator needs. For fixes in order that
  holds of the server as it is, whose event times are whole seconds and whose debounce is 90 seconds
  (`GeofenceLog.ServerWindowSuffices`), and of any debounce up to 126 seconds, but of none longer: a fix a
  second then leaves a crossing unrecorded (`GeofenceLog.WindowSufficesExactly`, `WindowCanMiss`). For event
  times as they come, `GeofenceLog.WindowExact` is the exact condition.
- `internal/store/geofence.go:277-278` says a failure to append one Place's transition does not abandon the
  other Places. It does: all Places are evaluated if and only if none before the last fails, and every log is
  left as if its Place had been evaluated alone if and only if no Place after the first that fails had anything
  to record (`GeofencePlaces.FirstFailureAbandons`). And rows the failing Place had already written are not returned,
  so no push announces them, now or later, although `internal/server/server.go:411-412` says a partial
  evaluation still pushes what it did record (`GeofencePlaces.ReturnedExactly`, `NeverReturnedLater`).
  `GeofencePlaces.FailureCostsBoth` is a pass that shows both.
- `internal/store/geofence.go:16-19` and `439-441` say the log converges whatever order fixes arrive in, and
  `30-31` that a late fix ahead of the last transition is handled exactly by ts. An evaluation only appends, so
  the log converges if and only if nothing recorded has become wrong (`GeofenceReordering.ConvergesExactly`,
  `ConvergesThroughout`). A late fix ahead of the last transition leaves a right log right if and only if it
  does not lie on the other side, before the fix that confirmed that transition
  (`GeofenceReordering.AheadConvergesExactly`). One that does leaves an arrival in the log which the stored
  fixes do not bear out (`GeofenceReordering.LateFixContradicts`).
- `internal/server/stream.go:12-13` promises resumption with no gaps. It is kept, however the devices move in
  the meantime, if and only if the cut leaves no position behind: none that arrived at the same instant as the
  last one sent, was not sent itself, and is still its device's position on return
  (`StreamResume.ResumesWithoutGaps`). While no device moves, that is if and only if the cut does not split a
  group of equal arrivals (`StreamResume.ResumesUnmoved`); one that is split off is not sent again
  (`StreamResume.SplitTieLosesOne`).
- `internal/server/stream.go:229-230` and `456` say a watcher is told of an outage once. That holds when the
  family cannot be read; but a resumed connection that reads the family and not the past contacts reports the
  outage on every poll, as the poll has marked itself healthy by then (`StreamSilence.ReportsExactly`,
  `ReportedOnEveryPoll`).
- The ledger never over-counts, but a take-back from before an endpoint registered again can take a later
  delivery's count away (`PushSystem.StaleTakeBackUndercounts`). The count is exact just until that happens
  (`PushExactness.ExactUntilStaleDrop`), and again from the next time the account is emptied
  (`PushExactness.EmptiedIsExact`).
- `internal/server/stream.go:68-70` says every wide pair of windows polls once a second. The 64-bit product
  wraps once the sweep bound passes some 292 years, and for some legal windows the tick is then 256
  nanoseconds (`Presentation.TickCanCollapse`); `Presentation.TickIsTheDocumentedOne` says for which it is as
  documented.
- A push timestamp is read back exactly, but it is not the only text of its instant: signed fields and a
  sixtieth second are accepted (`PushTimestamp.OnlyCanonicalReturns`).

## How things are represented

Instants are integers: nanoseconds, microseconds where the database and event ids use them, seconds in the
push timestamp. Fixes of one device are a sequence in strictly increasing event time, or a map keyed by it
(the primary key). Containment in a Place is an arbitrary boolean per fix. Ids whose order matters are
numbers standing for their place in byte order; ids that are only compared are abstract types. The network,
the clock and the database's answers are parameters; a sender is any function from attempts to success.

## Model

| member | source | states |
|---|---|---|
| DwellMachine.ConfirmTransitions | internal/store/geofence.go:448-487 | the nested-loop scan computes `Confirm`, for any readings, seed and evidence |
| DwellMachine.EmitsExactly | internal/store/geofence.go:448-487 | a transition is emitted if and only if it is the first reading of a maximal run that opposes the current state, whose from-state has been witnessed, and which reaches a reading at or past onset plus debounce |
| DwellMachine.NeverRetracts | internal/store/geofence.go:448-487 | the transitions of a prefix of the history are a prefix of the transitions of the whole: later fixes only append |
| DwellMachine.RestartsAnywhere | internal/store/geofence.go:318-367 | restarting from any emitted transition (its state as seed, only later readings) yields exactly the remaining transitions |
| DwellMachine.Spaced | internal/store/geofence.go:448-487 | transitions of one scan alternate, start away from the seed, and have onsets more than the debounce apart |
| DwellMachine.LookAheadIsOnePass | internal/store/geofence.go:448-487 | the quadratic look-ahead agrees with a one-pass machine that only remembers a pending onset |
| GeofenceLog.EventLog.InsertRow | internal/store/geofence.go:368-415 | a row is written exactly when no row of that fix time exists, and then appended; the caller learns which |
| GeofenceLog.EventLog.EvaluateOneGeofence | internal/store/geofence.go:317-415 | one evaluation leaves the log of the specification and returns exactly the rows it wrote, in order |
| GeofenceLog.AnyArrivalOrder | internal/store/geofence.go:317-415 | however fixes arrive, replays included, the log alternates from enter with strictly increasing fix times, and every event is the crossing of a stored fix; whether it is also the right log is what `GeofenceReordering` says |
| GeofenceReordering.ConvergesExactly | internal/store/geofence.go:16-19 | an evaluation whose read the bound does not matter to leaves the batch projection of the stored fixes if and only if the log it found is a beginning of that projection |
| GeofenceReordering.ConvergesThroughout | internal/store/geofence.go:16-19 | for fixes arriving in any order, replays included, and such reads: the log is the batch projection after every arrival if and only if no arrival takes anything back from the projection |
| GeofenceReordering.AheadConvergesExactly | internal/store/geofence.go:26-31 | a late fix ahead of the last transition, into a right log: the evaluation leaves it right if and only if the fix lies on that transition's side, or after a fix that confirmed it, or nothing is recorded |
| GeofenceReordering.LateFixContradicts | internal/store/geofence.go:30-31 | four arrivals, the last late but ahead of the recorded arrival, after which the log holds that arrival and the batch projection is empty |
| GeofenceLog.WindowExact | internal/store/geofence.go:54-60 | with fixes in order and one evaluation each, the incremental log equals the batch projection after every fix if and only if every crossing fits the neighbourhood of the fix that confirms it |
| GeofenceLog.SpacingSuffices | internal/store/geofence.go:54-60 | if any 127 consecutive fixes span the debounce, the incremental log is the batch projection of all fixes |
| GeofenceLog.ServerWindowSuffices | internal/store/geofence.go:43-60 | with the server's whole-second event times and 90-second debounce, fixes in order always leave the batch projection |
| GeofenceLog.WindowSufficesExactly | internal/store/geofence.go:54-60 | for whole-second event times the bounded window suffices for every history of fixes in order if and only if the debounce is at most 126 seconds |
| GeofenceLog.WindowCanMiss | internal/store/geofence.go:54-60 | for every longer debounce, a history whose one crossing is not recorded |
| GeofenceReevaluation.ReevaluationIsSilent | internal/store/geofence.go:268-270 | evaluating again appends nothing when the first pass read to the newest fix or recorded nothing later than the triggering fix |
| GeofenceReevaluation.SilentExactly | internal/store/geofence.go:317-415 | evaluating again appends nothing if and only if the first pass recorded nothing or no run on the other side of its last event, in the neighbourhood past it, lasts the debounce |
| GeofenceReevaluation.ReevaluationCanAppend | internal/store/geofence.go:268-270 | after 129 fixes in order and then a late one, evaluating the late fix a second time appends a crossing |
| GeofenceConcurrency.InterleavingsConverge | internal/store/geofence.go:318-415 | for every interleaving of arrivals, seed reads, bounded fix reads and single inserts, stops included, the log is a prefix of the batch projection and each row was returned as new exactly once, by one evaluator; a read may be cut anywhere on the right, and on the left where what is cut lies on the recorded side |
| GeofenceConcurrency.NextEvaluationHeals | internal/store/geofence.go:268-270 | wherever evaluators stopped, one whole evaluation extends the log to a prefix of the batch projection that covers every fix it reached, and to all of it when it reached the newest |
| GeofenceConcurrency.UncutReads | internal/store/geofence.go:348-375 | a read the bound does not cut at all meets both conditions |
| GeofencePlaces.FamilyLog.EvaluateOneGeofence | internal/store/geofence.go:317-415 | one Place: what is written before a failure stays written, and exactly the rows it wrote are returned to the pass |
| GeofencePlaces.FamilyLog.EvaluateDeviceGeofences | internal/store/geofence.go:273-311 | the pass evaluates Places up to the first failure, keeps what that one wrote, and returns the rows of those before it |
| GeofencePlaces.FirstFailureAbandons | internal/store/geofence.go:277-278 | every Place is evaluated if and only if none before the last fails; every Place's log is left as if it had been evaluated alone if and only if no Place after the first that fails had anything to record |
| GeofencePlaces.EachAsAlone | internal/store/geofence.go:276-278 | a Place the pass comes to is left as an evaluation of it alone would leave it, and the log of any other as it was |
| GeofencePlaces.ReturnedExactly | internal/store/geofence.go:300-311 | everything newly recorded is returned, and so announced, if and only if no Place fails or the failing one had recorded nothing |
| GeofencePlaces.NeverReturnedLater | internal/store/geofence.go:385-413 | a row that is in the log already is never returned by any later evaluation |
| GeofencePlaces.FailureCostsBoth | internal/store/geofence.go:300-311 | a pass over two Places whose failure leaves an arrival recorded but unannounced and the other Place unevaluated |
| GeofenceFamily.PassReaches | internal/store/geofence.go:273-311 | every Place up to the first whose evaluation is cut short gets the log `GeofenceLog.Evaluate` leaves, that one gets as much of it as was reached, and every later one keeps the log it had |
| GeofenceFamily.PassIsEvaluated | internal/store/geofence.go:273-311 | and whatever the logs hold, a Place with nothing interrupted before it ends up between its old log and the log `GeofenceLog.Evaluate` leaves, with the latter when it is not interrupted itself |
| GeofenceFamily.PassReturns | internal/store/geofence.go:300-311 | what a pass returns: Place after Place up to that one, each event added to the Place's log, in the order of the log, and nothing else |
| GeofenceFamily.StopsAtInterruption | internal/store/geofence.go:277-311 | a pass stops at the first evaluation the database cuts short: one that cannot read, or fails an INSERT that was still to come |
| GeofenceFamily.PassLeaves | internal/store/geofence.go:273-311 | the log of a Place that is not the family's stays as it was |
| GeofenceFamily.PassConverges | internal/store/geofence.go:16-19 | a pass nothing interrupts leaves a Place the batch projection of its fixes if and only if its log was a beginning of that, given a read the bound does not matter to |
| GeofenceFamily.LogsKeepShape | internal/store/geofence.go:273-415 | over every history of fixes in any order, replays included, and every failing evaluation, each Place's log alternates from enter with strictly increasing fix times, and every event is the crossing of a stored fix |
| GeofenceFamily.LogsAreAlone | internal/store/geofence.go:273-415 | over every history without failures, each Place of the family has the log that Place alone would have |
| GeofenceFamily.FamilyHasBatch | internal/store/geofence.go:43-60 | so with fixes in order and the server's times and debounce each Place has the batch projection of what it saw |
| PushLedger.ClassifiedEffect | internal/push/ledger.go:135-160 | classification hands over exactly while fewer than four distinct keys are pending, then adds one to that key alone; an evicted endpoint starts over |
| PushLedger.TakenBackEffect | internal/push/ledger.go:164-181 | a take-back lowers one positive count by one and touches nothing else |
| PushLedger.ForgottenEffect | internal/push/ledger.go:187-209 | forgetting an endpoint empties its account and leaves every other as it was |
| PushLedger.DeliveryLedger.Classify | internal/push/ledger.go:135-160 | the method, eviction included, does to the fields what the operation on values does, and keeps the ledger's shape |
| PushLedger.DeliveryLedger.NotHandedOver | internal/push/ledger.go:164-181 | the method takes one hand-over of that key back, dropping the key with its last count |
| PushLedger.DeliveryLedger.Forget | internal/push/ledger.go:196-209 | the method removes the endpoint's account and its one place in the order |
| PushLedger.DeliveryLedger.EvictLocked | internal/push/ledger.go:228-234 | the loop drops the oldest endpoints until the bound holds |
| PushSystem.LedgerKeepsItsShape | internal/push/ledger.go:135-234 | over every run the order repeats no endpoint and matches the map's keys, with at most 4096 endpoints, at most 4 keys each, every count at least 1 |
| PushSystem.NeverOverCounts | internal/push/ledger.go:135-209 | over every run of the whole system a count is at most the deliveries handed over for that key since the account last started over and not dropped since, with equality for every endpoint whose account was never emptied under a delivery on its way and to which nothing was offered without a classification |
| PushExactness.StepStaysExact | internal/push/push.go:190-195 | a step keeps an exact count exact if and only if it does not drop a delivery the account no longer counts while there is a count to take back |
| PushExactness.ExactUntilStaleDrop | internal/push/ledger.go:135-209 | over every run, the count of a key is exact in every state so far if and only if no such drop has happened so far |
| PushExactness.ExactSince | internal/push/ledger.go:135-209 | the same from any moment at which the count is exact |
| PushExactness.EmptiedIsExact | internal/push/ledger.go:187-234 | registration, removal and eviction make the count exact again |
| PushSystem.StaleTakeBackUndercounts | internal/push/push.go:190-195 | a run in which the count falls short: a stale drop takes a later delivery's count away |
| PushSystem.SurplusIsHonest | internal/push/ledger.go:135-160 | whenever beyond-collapse-bound is classified, four distinct keys each have a delivery handed over since the account started over and not dropped |
| PushSystem.NothingUpgrades | internal/push/push.go:237-253 | no later step changes a classification, and what is recorded is it or dropped |
| PushSystem.EveryDeliveryAccounted | internal/push/push.go:164-220 | once Close has drained everything offered, each delivery has exactly one record: its classification after a Send that succeeded, or dropped with none that did, with at most maxAttempts sends; accepted ones were served first in, first out |
| PushSystem.QueueBoundedAndFair | internal/push/push.go:164-182 | at every moment the queue is within capacity, one delivery at most is being sent, and service follows acceptance |
| PushDispatcher.Dispatcher.constructor | internal/push/push.go:116-159 | a new dispatcher is empty, and settings below one are treated as one |
| PushDispatcher.Dispatcher.IsReachable | internal/push/push.go:143-255 | every method keeps the object on a run of the step system (`Valid`), so every law of reachable states holds of the object |
| PushDispatcher.Dispatcher.Enqueue | internal/push/push.go:164-182 | as many deliveries as there is room for join the queue in order; each of the rest is counted, taken back and recorded dropped; what the worker is sending is left alone (`OfferAll` says the same of deliveries already classified) |
| PushDispatcher.Dispatcher.NotifyGeofenceEvents | internal/push/notify.go:53-86 | every (crossing, endpoint) pair is classified, in order, before any is offered, also while the worker is sending; a failed lookup, no crossing or no endpoint changes nothing |
| PushDispatcher.Dispatcher.DeliverNext | internal/push/push.go:225-255 | the oldest delivery is tried until the backend takes it or attempts run out: its classification recorded in the first case, a take-back and dropped in the other; none without a sender |
| PushDispatcher.Dispatcher.Finish | internal/push/push.go:236-255 | the same of a delivery that has been tried already, over the attempts that remain |
| PushDispatcher.Dispatcher.Close | internal/push/push.go:208-220 | closing, at any moment, gives the delivery being sent its remaining attempts, then serves everything accepted, one entry each in the order of acceptance, and ends drained |
| PushDispatcher.Dispatcher.EndpointForgotten | internal/push/notify.go:93-102 | registering again or being removed empties that account and leaves queue, log and the delivery being sent alone |
| PushCalls.FanOut | internal/push/notify.go:71-86 | of the deliveries made, number i * endpoints + j is crossing i's at endpoint j, and there are no others |
| PushCalls.EachInTurn | internal/push/notify.go:74-80 | each is classified against the ledger the ones before it left |
| PushCalls.OldestMakesRoom | internal/push/ledger.go:135-160 | a first-seen endpoint joins at the end of the order, and of 4096 the one tracked longest goes; a tracked one moves nothing |
| PushCalls.FourKeysAreTheBound | internal/push/ledger.go:135-160 | a classification is beyond the bound if and only if four keys are pending at the endpoint |
| PushCalls.ClosedForGood | internal/push/push.go:201-211 | once closed, on every run, nothing is accepted or refused any more |
| PushCalls.RecordedAsClassified | internal/push/push.go:66-72 | a delivery the backend takes is recorded as classified, and as handed over if it never was; any other is recorded dropped, with one hand-over of its key taken back unless it was beyond the bound |
| Presentation.AgeTruncatesTheDifference | internal/presentation/presentation.go:82-91 | the borrowing computation is the truncation of the difference of the instants, and zero under a clock skew |
| Presentation.Bands | internal/presentation/presentation.go:58-71 | the bands in real time: live until the last nanosecond of the live second, stale from the second after the staleness window |
| Presentation.SweepBoundFitsTwice | internal/presentation/presentation.go:93-111 | the sweep bound is the longest whole number of seconds that fits twice into the live window and twice into the recent band, and at least one |
| Presentation.NoBandSteppedOver | internal/presentation/presentation.go:93-111 | for legal windows and one last contact, polls at most the sweep bound apart that see live and later stale see recent in between |
| Presentation.TickMeetsTheBound | internal/server/stream.go:72-78 | with 64-bit wrap-around, the tick is positive, at most a second, and at most half the sweep bound |
| Presentation.TickIsTheDocumentedOne | internal/server/stream.go:61-78 | the tick is the documented one if and only if the product does not wrap onto a short positive number, and always for bounds below 292 years |
| Presentation.TickCanCollapse | internal/server/stream.go:72-78 | legal windows for which the stream polls every 256 nanoseconds |
| LiveStream.SortSorts | internal/server/presentation.go:163-179 | the arrival sort permutes the rows into arrival order, unlocated first, ties by device id |
| LiveStream.SortIsByArrival | internal/server/presentation.go:163-179 | in plain comparisons: rows without a position first, by device; then by arrival, equal arrivals by device |
| LiveStream.StreamConn.constructor | internal/server/stream.go:137-160 | a connection starts from the client's cursor, or from the zero time when there is none |
| LiveStream.StreamConn.Poll | internal/server/stream.go:243-323 | a poll changes the cursor, observation and health, and writes the events, of the specification: positions against the cursor as the poll began, then who is owed a presentation event, or one error event; when a write fails, the watcher has received a beginning of them and the cursor is at the last id it received |
| StreamAgreement.PollOnRow | internal/server/stream.go:269-322 | device by device: a newer position brings the whole view, a device owed an event is told its freshness and keeps or loses its marker, and the map about every other device stays as it was |
| StreamSession.PurgeAges | internal/db/partitions.go:116-131 | a purge by whole months is a change the session allows: what goes, goes oldest first |
| StreamSession.ArrivalAges | internal/store/store.go:84-88 | so is a fix received after all visible before, unless its event time is stored already |
| StreamSession.ChangesEvolve | internal/server/stream.go:163-183 | whatever enrolments, later arrivals and month-wise purges happen between two reads is a change the session allows |
| StreamSession.MapTellsTheTruth | internal/server/stream.go:243-323 | at every moment of every fresh session, through time passing, backlog fixes, purges and outages, each device on the map is shown with exactly the value and position of the last completed read; every device of the first read is shown; and, once the map shows any device, it is marked unconfirmed exactly while the family cannot be read |
| StreamCursor.PollIds | internal/server/stream.go:269-285 | the ids of a poll are past the cursor it found, up to the one it leaves, and in order, whatever it read |
| StreamCursor.IdsNeverDecrease | internal/server/presentation.go:157-162 | over all polls of a connection, fresh or resumed, ids never decrease and the cursor is at or past every one |
| StreamCursor.OneEventEach | internal/server/stream.go:255-313 | each poll says exactly one thing about a device, or nothing: its position when that arrived after the cursor as the poll began, ties included, else its freshness when owed |
| StreamCursor.IdComesBack | internal/server/stream.go:550-560 | the id a client sends back is parsed to the cursor it names, for every 64-bit id |
| StreamCursor.OnlyNumbersAreCursors | internal/server/stream.go:550-560 | only an optionally signed decimal number that fits 64 bits is a cursor |
| StreamCursor.ResumeReplays | internal/server/stream.go:137-160 | on a resumed connection's first poll a device's position is replayed if and only if it arrived after the client's cursor |
| StreamCursor.ResumeSettles | internal/server/stream.go:361-388 | a client that showed each reported device's value as of its cursor shows every device's value as of now after the resume sweep |
| StreamSilence.SpeaksExactly | internal/server/stream.go:243-452 | on every poll that gets through, of every connection, fresh or resumed, over every run: a device is spoken of if and only if its position arrived after the last id its client has seen, or: after an outage, in any case; else when the poll before read it and its freshness has changed since; on a client's return when it had not reported by the cursor or its freshness has changed since; at the start of a fresh connection when it has no fix |
| StreamSilence.SilentExactly | internal/server/stream.go:243-323 | a poll that gets through writes nothing at all if and only if none of that holds of any row it read |
| StreamSilence.UnchangedIsSilent | internal/server/stream.go:423-452 | rows that come to the same values as on the poll before are not spoken of, however often they are read |
| StreamSilence.ReportsExactly | internal/server/stream.go:454-475 | a poll that cannot read the family reports an outage if and only if the poll before it got through; one that reads the family and not the past contacts reports it every time |
| StreamSilence.ReportedOnEveryPoll | internal/server/stream.go:249-251 | a resumed connection of which every poll reads the family and not the past contacts writes one error event per poll |
| StreamSilence.PayloadsSay | internal/server/presentation.go:79-131 | events carry the newest fix by event time, the newest arrival of any fix in whole seconds, and the value that comes to; of a device without a fix, only that |
| StreamResume.CursorIsLastSeen | internal/server/stream.go:280-284 | after any polls, a connection's cursor is the last id its client has seen |
| StreamResume.PollDelivers | internal/server/stream.go:266-285 | a poll, completed or not, sends a row's position if and only if it arrived after the cursor as the poll began |
| StreamResume.ResumesWithoutGaps | internal/server/stream.go:11-16 | a client cut off after any number of events of any poll comes back with the last id it saw, while devices may have moved: for every position that poll owed, it was sent before the cut or the device's position on return is sent on the first resumed poll, if and only if the cut left none behind: arrived with the last position sent, not sent itself, and still held |
| StreamResume.AwayIsOnward | internal/server/stream.go:163-183 | whatever enrolments, later arrivals and month-wise purges happen meanwhile, a device then holds no position, the same one, or one that arrived later, which is all the theorem asks |
| StreamResume.ResumesUnmoved | internal/server/stream.go:11-16 | while no device moves: every owed position is sent before the cut or on return, if and only if the cut does not split a group of equal arrivals |
| StreamResume.NeverReplayed | internal/server/stream.go:266-285 | a position at or before a connection's cursor is never sent on it, however often it polls |
| StreamResume.SplitTieLosesOne | internal/server/stream.go:11-16 | two positions of one instant and a cut between them: the second is never sent while neither device moves |
| CivilCalendar.CountsDays | android/app/src/main/java/com/nschatz/tracker/alert/PushPayload.kt:97-105 | the closed form is the number of single-day steps from 1970-01-01, for every date, negative years included, and every whole number is the count of a valid date |
| CivilCalendar.StrictlyIncreasing | android/app/src/main/java/com/nschatz/tracker/alert/PushPayload.kt:97-105 | a date is earlier if and only if its count is smaller, and no two dates share one |
| CivilCalendar.DateOfCount | android/app/src/main/java/com/nschatz/tracker/alert/PushPayload.kt:97-113 | stepping as many days as the count leads back to the date |
| CivilCalendar.DayInMonth | internal/db/partitions.go:197-200 | a day lies between the first days of its month and the next, and of no other |
| PushTimestamp.ReadsWhatWasWritten | android/app/src/main/java/com/nschatz/tracker/alert/PushPayload.kt:75-94 | the app reads back every second of the years 0000 to 9999 the server writes |
| PushTimestamp.OnlyCanonicalReturns | android/app/src/main/java/com/nschatz/tracker/alert/PushPayload.kt:75-94 | an accepted text is what the server would have written if and only if no field is signed and the second is not 60 |
| PushTimestamp.ReadsExactly | android/app/src/main/java/com/nschatz/tracker/alert/PushPayload.kt:75-94 | a text is accepted if and only if its fields are numbers that make a day of the calendar and a time of day up to a sixtieth second, and reads as that second |
| PushTimestamp.LeapSecondIsNextMidnight | android/app/src/main/java/com/nschatz/tracker/alert/PushPayload.kt:91-94 | a leap second at midnight reads as the next day's first second |
| PartitionStore.InMonth | internal/db/partitions.go:191-200 | an instant lies in the UTC month computed for it and in no other |
| PartitionStore.NamesDiffer | internal/db/partitions.go:203-205 | no two months share a partition name |
| PartitionStore.NameSpells | internal/db/partitions.go:203-205 | in a four-digit year the name is the prefix, the year in four digits and the month in two |
| PartitionStore.FixStore.EnsureMonthlyPartition | internal/db/partitions.go:47-90 | creates the month's partition if the name is free and nothing overlaps, and succeeds only if the bounds under that name are the month's |
| PartitionStore.FixStore.EnsurePartitions | internal/db/partitions.go:103-118 | provisions consecutive months up to the first failure, refusing a count below one |
| PartitionStore.FixStore.UpsertFix | internal/store/store.go:93-104 | refuses a bad coordinate, fails without a covering partition, absorbs a known identity, and otherwise adds the fix to the partition that covers it |
| PartitionStore.FixStore.IngestFix | internal/store/store.go:137-166 | refuses outside the window, and on a missing partition provisions the month and retries once |
| PartitionStore.FixStore.DropPartitionsBefore | internal/db/partitions.go:132-189 | drops what ends at or before the cutoff up to the first unreadable bound or the first DROP that fails, and reports the dropped names, each once and in listing order, and how it ended |
| PartitionStore.FixStore.RunOnce | internal/retention/retention.go:61-74 | the same, names and order included, with the cutoff a window before now |
| PartitionCalls.IngestsExactly | internal/store/store.go:42-166 | into a sound table a fix is stored, or absorbed as known, if and only if it is at most ninety days behind the server, at most twenty-four hours ahead, at a finite longitude in [-180, 180] and a finite latitude in [-90, 90]; a refused one changes nothing, and the window is looked at first |
| PartitionCalls.UpsertsExactly | internal/store/store.go:42-104 | over any catalog: refused off the globe, failing where no range holds the instant, absorbed where the identity is known, and else one more row there |
| PartitionCalls.ProvisionsExactly | internal/db/partitions.go:47-90 | over any catalog: success if and only if afterwards the name has exactly the month's bounds; what has the name is left alone, and a month another partition reaches into is not created |
| PartitionCalls.DroppedInOrder | internal/db/partitions.go:170-188 | the names a purge reports are in the order of the listing |
| PartitionCalls.PurgeEnds | internal/db/partitions.go:132-189 | over any catalog: a purge gets through, or stops at an unreadable bound or the first DROP that fails; what it passed is gone exactly where it ends by the cutoff, and what lies past the stop is untouched |
| PartitionLife.EnsuringAdds | internal/db/partitions.go:47-90 | in a sound table provisioning a month never fails and adds only its empty partition |
| PartitionLife.StartUpProvisions | internal/db/partitions.go:103-118 | after start-up all its months are there, reported by name in order, and nothing that was there has changed |
| PartitionLife.IngestStoresOrAbsorbs | internal/store/store.go:117-154 | a fix in the window with a valid coordinate is stored, or absorbed because its identity is known; none is lost for want of a partition, no other fix is touched, and a refused one changes nothing |
| PartitionLife.ReplayIsAbsorbed | internal/store/store.go:80-88 | a replay that comes next changes nothing, whatever it carries and however late |
| PartitionLife.AbsorbedExactly | internal/store/store.go:80-88 | in every life, a fix in the window and on the globe is absorbed, changing nothing, if and only if its identity was ingested before and no purge has dropped its month since; otherwise it is stored |
| PartitionLife.FiveMonths | internal/store/store.go:111-121 | fixes acceptable at one instant lie within five consecutive months |
| PartitionLife.PurgeSparesTheNewer | internal/db/partitions.go:120-131 | no purge takes a fix at or after its cutoff, however far it gets and whatever else is in the catalog |
| PartitionLife.PurgeKeepsExactly | internal/db/partitions.go:120-189 | a purge that gets through the listing keeps exactly the fixes whose month ends after the cutoff, so survivors are newer than the cutoff less 31 days |
| PartitionLife.CompletesExactly | internal/db/partitions.go:170-188 | over whole months a purge gets through the listing if and only if every DROP it needs succeeds |
| PartitionLife.LifeIsSound | internal/db/partitions.go:47-189 | in every life of start-ups, arrivals and purges, each partition is a whole UTC month under its own name holding only that month's fixes |
| PartitionLife.Disjoint | internal/db/partitions.go:47-90 | partitions are pairwise disjoint |
| PartitionLife.OnePartitionEach | internal/db/partitions.go:47-189 | each stored fix is in exactly the partition that covers its event time |
| CrossingMerge.Merge | android/app/src/main/java/com/nschatz/tracker/alert/CrossingMerge.kt:36-46 | the loops yield the canonical union: strictly newest first, ties by device then place, holding exactly the kept copies, the route's where it has one |
| CrossingMerge.MergeIsNewestFirst | android/app/src/main/java/com/nschatz/tracker/alert/CrossingMerge.kt:36-46 | newest first, ties by device and then by place, and of every identity the latest row of the route, or where that has none the latest push |
| CrossingMerge.EachIdentityOnce | android/app/src/main/java/com/nschatz/tracker/alert/CrossingMerge.kt:12-34 | every identity of either source is in the merge exactly once, by its kept copy |
| CrossingMerge.MergeIsUnique | android/app/src/main/java/com/nschatz/tracker/alert/CrossingMerge.kt:36-46 | there is only one such list |
| CrossingMerge.MergeAnyOrder | android/app/src/main/java/com/nschatz/tracker/alert/CrossingMerge.kt:36-46 | permuting either source, when it repeats no identity, changes nothing |
| CrossingMerge.MergeIsIdempotent | android/app/src/main/java/com/nschatz/tracker/alert/CrossingMerge.kt:36-46 | merging the merge again, with the pushes, itself or nothing, changes nothing |
| CrossingMerge.AlertSurface.RecordPush | android/app/src/main/java/com/nschatz/tracker/alert/AlertSurface.kt:65-74 | replaces the first crossing of the same identity in place, or appends |
| CrossingMerge.RecordingLosesNothing | android/app/src/main/java/com/nschatz/tracker/alert/AlertSurface.kt:65-74 | after any pushes the list repeats no identity and keeps the last push of each |
| CrossingMerge.MergeOfRecorded | android/app/src/main/java/com/nschatz/tracker/alert/AlertSurface.kt:58-74 | merging the recorded list is merging everything that was ever pushed |
| VulnGate.LevelOf | internal/vulngate/report.go:285-300 | the loop finds the deepest step of a trace, the one level that is |
| VulnGate.KeptSummarises | internal/vulngate/report.go:173-197 | the fold keeps, for exactly the ids found, the maximum level, a trace of a finding that deep, and a fix if and only if some finding of that id names one |
| VulnGate.KeptIsChosen | internal/vulngate/report.go:173-197 | the trace kept is that of the first deepest finding; the fix that of the last finding that deepened the advisory and names one, else of the first that names one |
| VulnGate.AnyFindingOrder | internal/vulngate/report.go:173-197 | the order of findings changes neither the ids, nor the levels, nor whether there is a fix |
| VulnGate.ParseReport | internal/vulngate/report.go:148-225 | reads a report if and only if no message is garbled, every finding names an id and has a trace, and the last config there is names the wanted scanner, level and mode; otherwise refuses with the error of the first unreadable message, else of the last config; the report is the fold of all findings, by ascending id |
| VulnGate.RefusedExactly | internal/vulngate/report.go:148-217 | which streams are refused and for what, for every error |
| VulnGate.Evaluate | internal/vulngate/gate.go:119-177 | the three lists of problems are exactly the unrecorded advisories, the recorded ones with a fix, and the records of nothing, in the order of the report and of the records |
| VulnGate.OnlyCounts | internal/vulngate/gate.go:119-177 | each of these is listed as often as it was given, and nothing else is |
| VulnGate.Check | internal/vulngate/gate.go:51-81 | green if and only if the records are readable, the scanner ran, its exit status is zero, every message of its stream can be read, its last config is the wanted one, the ids its findings name are the ids recorded, and no finding names a fix |

## Left out

- HTTP handlers, JSON and SSE bytes, authentication, CLI commands and log formatting: plumbing with single-branch checks.
- PostGIS geometry: containment is an arbitrary boolean per fix, coordinates are checked but not placed.
- FCM and UnifiedPush senders, token signing and endpoint digests: a send succeeds or fails arbitrarily; retry pauses take no time.
- Database failures while fixes are stored, other than a missing partition; failures of an evaluation are those of `GeofencePlaces`, and stops those of `GeofenceConcurrency`.
- EvaluateDeviceGeofences: a listing of Places that fails evaluates nothing and is not modelled; a failed read and a failed insert of one evaluation are.
- Dispatcher: its methods run one after another, a delivery being sent apart; the finer interleavings of notifier, worker and registration are those of `PushSystem`.
- `PushSystem`: a take-back and the record of the drop are one step, while the code does them one after the other (`internal/push/push.go:175-178`, `230-232`, `249-250`); nothing reads the records in between.
- buildNotification: only the collapse key and the timestamp matter here; titles and bodies are left out.
- sortDeviceStates: the Unicode case-folded name order is not modelled; presentation events may come in any order of the rows.
- `StreamConn`: the event payload that cannot be encoded, and the id line missing at the instant 1970-01-01 exactly, are not modelled; a position's own times are kept whole rather than cut to wire seconds.
- ResumeSettles: claims what the sweep computes, for a client that was right as of its cursor; what a client retained across a reconnection is not modelled, nor is a resumed first poll that fails partway.
- Map page: `GET /v1/positions`, rejected events and drawing; events here are well formed.
- GeofenceFamily: the family's Places do not change over a history; one pass may be over any list of them.
- GeofenceReordering: a late fix older than the last transition is covered by `ConvergesExactly` and `ConvergesThroughout`; the source itself excludes it from what it promises (`internal/store/geofence.go:26-30`).
- ReevaluationIsSilent: gives conditions that suffice; `SilentExactly` is the exact one.
- GeofenceConcurrency: fixes arrive in ts order, and what the neighbourhood bound cuts off before a read lies on the recorded side; `GeofenceLog.WindowExact` is exact about such cuts for one evaluator.
- ParseUtcCalendarSeconds: digits are the ASCII ones; the platform's parser also takes other Unicode digits. Years are unbounded integers, while the field is four characters.
- Partition store: a partition with an unreadable bound is taken to cover nothing, so a default partition's rows are not modelled; racing creators of one partition, migrations and roles are outside, as the code documents a single migrator. Fix times are kept to the nanosecond, the database's to the microsecond.
- Purge: a catalog that cannot be listed drops nothing and is not modelled. The catalog lists partitions in any order without repeats, not only by name.
- `Job.Run`: the ticker repeats `RunOnce`, which may happen at any moment of a life.
- ParseReport: summaries, rendered traces, module versions and the id pattern; an id that does not match it is an absent one.
- `VulnGate.Evaluate`: the texts of the problems, which the code sorts before it joins them.
- Suppression file parsing and its key checks, and the rest of the internal tooling.
- Android services, notifications, the user interface and the HTTP client.
