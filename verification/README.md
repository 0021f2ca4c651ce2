# Codex Warden: the event and action core, modelled and proved in Dafny

Codex Warden sits beside the Codex GUI on one shared app-server daemon. Its core is a set of bounded,
lossy and concurrent structures that promise honesty: nothing is lost silently, nothing is sent twice.
This project models that core and proves the promises over every run and every interleaving.

| file | models |
|---|---|
| `Protocol.dfy` | events, raw frames, the JSON shapes the core reads |
| `Store.dfy` | the event store: a deque with three redundant indexes, age and byte-cap pruning, gaps, queries |
| `Reducer.dfy` | per-thread state with inline pruning, the lifecycle replay log, one-shot waiters |
| `Streaming.dfy` | broadcast channels, the delta stream, the lag-recovering lifecycle stream |
| `Transport.dfy` | the reconnecting request protocol: numbering, pending requests, verdicts |
| `Control.dfy` | start, steer and interrupt over that transport |
| `Subscriptions.dfy` | concurrent `discover` calls coupled to the reducer |
| `Ingest.dfy` | authoritative ingress, one `discover` call, bounded paging reconciliation |
| `Threads.dfy` | the cursor walk of `thread/list` |
| `Pipeline.dfy` | transport, reducer and stream put together |

Code that works in place is a class whose methods are tied to specification functions; the properties
are lemmas about those functions. Code that runs concurrently is in addition a state machine whose
actions are the stretches between two awaits (or one lock's critical section), and the main results
quantify over every sequence of actions. An action that is not enabled leaves the state as it is.

## Main results

- **No silent loss** (`Streaming.NoSilentLoss`, `Streaming.SilentLossIff`, `Pipeline.NoSilentLossEndToEnd`).
  Over every run of the transport and every interleaving of ingress, reducer, stream and dropped `recv`
  futures, a published lifecycle event is still ahead of what the receiver has answered for, came through
  the stream, or is covered by a reported gap's snapshot. The only way to lose one is exactly
  characterised below. Exactly-once delivery fails (`RedeliveryHappens`); a consumer that ignores what is
  at or below its highest sequence accepts each event once, in order (`ExactlyOnceAboveTheMark`), and a
  received event is one it already knows of exactly when it is at or below that mark (`RepeatIff`). Two
  recoveries in a row never overlap (`RecoveriesNeverOverlap`).
- **At most one wire write per action** (`Control.AtMostOneWrite`) and outcomes that are sound
  (`OutcomesSound`, `AmbiguousIsUnknown`) and complete (`OutcomesComplete`), for any number of actions
  interleaved with the transport's own state machine and the reducer's waiter scans. The evidence of a confirmed interrupt is the first completion of its
  turn in the transport's feed since a registration that precedes every frame of the action; without one
  it rests on an accepted response to a later read.
- **Exactly one verdict per request** (`Transport.ExactlyOneVerdict`). A request's verdict is a function
  of the wire trace alone (`FateOf`, whose meaning is `FateMeaning`).
- **Store**: accounting is exact, the cap loop has a closed form with a minimal count
  (`EvictClosedForm`, `PruneByCaps`), recorded = retained + reported per thread and plane
  (`Conservation`), and a thread query is complete or flagged (`ThreadQueryComplete`).
- **Reducer**: pruning is unobservable (`PruningUnobservable`), the log answers completely or with a gap
  (`ReplayComplete`), waiters fire once on the first match (`NotifyWaiters`).
- **Subscriptions**: with idle release off, which is the default, the cap, single flight and agreement with
  the reducer hold in every interleaving (`CapAndSingleFlight`, `SubscribedAgree`). With it on each of the
  three can fail, and exactly when is proved for every run; the bound on resumes always holds
  (`ResumesBounded`).
- **Methods and interleavings agree**: an undisturbed run of the actions is the method
  (`Streaming.QuietRecv`, `Transport.Connection.DriveConnection`, `Ingest.QuietDiscoverRun`), and every
  finished action of every run meets the sequential controller's contract (`Control.RunsMeetTheContract`).

## Where the code does less than its documentation

Each case has a concrete instance and an exact condition.

- "Older delta records are evicted before lifecycle records" (README.md:191) fails for the per-thread
  cap, instance `Store.DeltaFirstFailsAcrossThreads`. It fails exactly when the thread's lifecycle bytes
  exceed the cap and another thread's delta is retained that is followed by no more of them than fit
  (`Store.DeltaFirstFailsIff`); the global cap always keeps the order (`Store.GlobalCapDeltaFirst`), and the
  two together break it exactly when the first does and some delta survives
  (`Store.CapPruneDeltaFirstFailsIff`). Other
  threads are left alone exactly when none of their events is followed by more lifecycle bytes of the
  thread than its cap (`Store.ThreadCapIsolationIff`); one oversized lifecycle event flushes everything
  (`Store.OversizedLifecycleFlushes`).
- "Both APIs SHALL report when the requested range predates retained data" (event-store specification)
  fails for cross-thread queries, which look only at the gap of thread-less events. Instance for both
  queries: `Store.CrossThreadLossUnreported`. Exact conditions: `Store.CrossThreadQueryHonestIff`,
  `Store.CrossThreadRangeIff` and `Store.CrossThreadTimeHonestIff`.
- A lifecycle event can be lost without a report when a caller drops a `recv` future in the middle of a
  recovery, as a time-out around it may. Dropping one that is still waiting for the channel is harmless
  (`Streaming.NoSilentLossUndropped`). Instance: `Streaming.DroppedRecvLoses`. It happens exactly when
  events above the consumer's mark were left behind and the next thing the channel yields is a plain event
  rather than another lag (`Streaming.SilentLossIff`).
- `GapTooOld` may be reported although nothing is missing (`Reducer.FalseAlarm`); it is a real loss
  exactly under `Reducer.GapIsRealIff`.
- "Idle, non-subscribed reducer entries are pruned immediately" (README.md:206) fails for a reconciled
  thread that reads as active without an in-flight turn when the subscription cap turns it away. Instance:
  `Ingest.IdleAdoptionAccumulates`; exact condition: `Ingest.AdoptionRelevantIff`, and for single
  operations `Reducer.StepRelevant`.
- Pending relevance "cannot be missed" (src/reducer/src/lib.rs:221-223) fails when a failed earlier call
  cancels late (`Subscriptions.StaleCancelRace`); exactly then, or when a release of the thread ends late
  (`Subscriptions.ProtectionLostIff`).
- Idle subscription release (README.md:211-213) races with `discover` in three ways, all of which need the
  release to be switched on.
  - The cap is exceeded: a release whose check came before a thread's call began is recorded while that
    call resumes (`Subscriptions.ReleaseOverfills`). Exact condition per run: `Subscriptions.CapLostIff`; over
    all runs of a configuration: `Subscriptions.CapHoldsIff`.
  - Two calls on one thread resume together (`Subscriptions.ReleaseDoubles`). Exact condition per run:
    `Subscriptions.SingleFlightLostIff`.
  - A thread is recorded as subscribed that the reducer has unsubscribed
    (`Subscriptions.LateDropDisagrees`). Exact condition per run: `Subscriptions.AgreementLostIff`.

  The first two need a release recorded over a call in its loop (`Subscriptions.OnlyClobberingBreaks`).
- The action-control specification asks for `turn/completed` with status `interrupted` before an
  interrupt is confirmed. The code looks at the ids only: an accepted interrupt of a turn that completed is
  confirmed (`Control.CompletedTurnConfirms`). Over every run a confirmed interrupt shows an interrupted
  turn exactly when the first completion since registration, or without one the read, says so
  (`Control.ConfirmedInterruptedIff`).

## Model

| member | source | states |
|---|---|---|
| Store.SurvivorsStep | src/store/src/lib.rs:136-146 | one over-cap iteration (oldest delta of the scope, else the oldest event) takes the closed form for k evictions to the one for k + 1 |
| Store.TimePruneMeaning | src/store/src/lib.rs:117-125 | age pruning drops a prefix of stale events and stops at the first that is not |
| Store.RetainInOrder | src/store/src/lib.rs:106-148 | what a record leaves is a sublist of what was there, in recorded order |
| Store.RetainFresh | src/store/src/lib.rs:117-125 | on a clock-ordered store nothing older than the retention window is left after a record |
| Store.RetainNeedless | src/store/src/lib.rs:116-148 | a record evicts nothing while everything is inside the window and all caps hold |
| Store.EvictCount | src/store/src/lib.rs:126-147 | the cap loop makes the fewest evictions that fit: every smaller count is still over the cap |
| Store.EvictClosedForm | src/store/src/lib.rs:126-147 | a cap phase drops exactly the oldest k deltas of its scope and the oldest m other events, m only when those deltas are gone, order kept, count minimal |
| Store.VictimsSufficeIff | src/store/src/lib.rs:131-145 | evicting deltas alone is enough exactly when the scope's lifecycle bytes fit its cap |
| Store.ThreadCapIsolationIff | src/store/src/lib.rs:131-146 | enforcing one thread's cap leaves other threads' events alone exactly when none of them is followed by more lifecycle bytes of the thread than the cap |
| Store.DeltaFirstFailsAcrossThreads | README.md:191 | after recording three received events of any one size a lifecycle record is gone while another thread's delta stays |
| Store.DeltaFirstFailsIff | src/store/src/lib.rs:131-146 | a thread's cap evicts a lifecycle record while a delta stays exactly when its lifecycle bytes exceed the cap and another thread's delta is followed by no more of them than fit |
| Store.GlobalCapDeltaFirst | src/store/src/lib.rs:131-146 | the global cap never evicts a lifecycle record while a delta stays |
| Store.CapPruneDeltaFirstFailsIff | src/store/src/lib.rs:126-147 | both cap phases of a record break the order exactly when the thread phase does and the global phase leaves a delta |
| Store.CutIff | src/store/src/lib.rs:131-146 | how many non-deltas of the scope a cap phase takes: the fewest whose successors fit |
| Store.OversizedLifecycleFlushes | src/store/src/lib.rs:106-147 | recording one lifecycle event above the per-thread cap leaves the whole store empty |
| Store.Conservation | src/store/src/lib.rs:160-169 | for each thread key, recorded = retained + summarized deltas + evicted lifecycle, split exactly by plane |
| Store.GapIsLargestEvicted | src/store/src/lib.rs:160-164 | the gap's sequence is the largest evicted sequence of its key, and present only if something was evicted |
| Store.ThreadQueryComplete | src/store/src/lib.rs:172-193 | an unflagged query for one thread misses no event ever recorded in its range |
| Store.CrossThreadQueryHonestIff | src/store/src/lib.rs:189-192 | cross-thread queries are complete or flagged for every range exactly when no thread lost anything newer than the newest thread-less loss |
| Store.CrossThreadRangeIff | src/store/src/lib.rs:178-192 | one open-ended cross-thread query misses nothing exactly when no key lost anything after its start |
| Store.CrossThreadTimeHonestIff | src/store/src/lib.rs:195-218 | cross-thread time queries are complete or flagged for every window exactly when a thread-less event was lost or no thread lost any |
| Store.CrossThreadLossUnreported | src/store/src/lib.rs:189-192 | after one recorded event both cross-thread queries come back empty and without a gap |
| Store.EventStore.constructor | src/store/src/lib.rs:61-72 | an empty store whose indexes agree with it |
| Store.EventStore.RemoveAt | src/store/src/lib.rs:150-170 | removes one event, charges it to its gap, keeps all three indexes exact so no subtraction saturates; out of range it does nothing |
| Store.EventStore.PruneByAge | src/store/src/lib.rs:117-125 | drops exactly the longest prefix older than the cutoff and never the newest event |
| Store.EventStore.OverCap | src/store/src/lib.rs:127-135 | finds a scope over its cap, a thread before the global cap, and none only when all caps hold |
| Store.EventStore.EvictOnce | src/store/src/lib.rs:136-146 | removes the oldest delta of the scope, else the oldest event |
| Store.EventStore.PruneByCaps | src/store/src/lib.rs:126-147 | terminates with every cap holding and exactly the two-phase closed form |
| Store.EventStore.PruneLocked | src/store/src/lib.rs:116-148 | age pruning then cap pruning, all caps hold, history untouched |
| Store.EventStore.RecordLocked | src/store/src/lib.rs:106-114 | appends to the history, keeps the indexes exact, every cap holds afterwards |
| Store.EventStore.Record | src/store/src/lib.rs:74-77 | as above for one event from ingress: nothing is reordered, nothing older than the retention window is left, and nothing goes while window and caps hold |
| Store.EventStore.RecordReconstructedActiveTurn | src/store/src/lib.rs:81-104 | records a marked anchor for exactly that turn when no genuine start of it is retained, and otherwise changes nothing |
| Store.EventStore.QuerySequence | src/store/src/lib.rs:172-193 | exactly the retained events in the range, in recorded order; for one thread complete over the whole history or flagged; across threads, up to the newest event, complete exactly when no gap of any key reaches past the start |
| Store.EventStore.QueryTime | src/store/src/lib.rs:195-218 | exactly the retained events in the tolerant window, in recorded order; for one thread complete when no gap is attached, across threads when no key has one |
| Store.SelectFilters | src/store/src/lib.rs:179-188 | an answer keeps exactly the matching events, in recorded order |
| Store.AnswerInOrder | src/store/src/lib.rs:179-188 | an answer is a sublist of everything ever recorded, in recorded order |
| Store.EventStore.EvictIdleContent | src/store/src/lib.rs:220-234 | keeps exactly the events that are no deltas of idle threads, in order, with indexes and caps |
| Reducer.StepShowsFacts | src/reducer/src/lib.rs:71-132 | one operation of the pruning reducer matches one step of a reducer that never prunes |
| Reducer.InFlightMeaning | src/reducer/src/lib.rs:306-322 | the in-flight turn is the newest one that is not completed, failed or interrupted, with its id if it has one |
| Reducer.ApplyShows | src/reducer/src/lib.rs:78-124 | what each kind of event leaves visible on the entry of its thread, and that no other entry changes |
| Reducer.PruningUnobservable | src/reducer/src/lib.rs:126-130 | over every run pruning changes no thread's active turn and no thread's subscription |
| Reducer.PruningUnobservableFromStart | src/reducer/src/lib.rs:71-132 | from the empty reducer on, every run shows the same active turns and subscriptions as one that never prunes |
| Reducer.StepSound | src/reducer/src/lib.rs:201-284 | pending subscriptions always have entries, last sequences never exceed the snapshot's, which never decreases |
| Reducer.StepRelevant | src/reducer/src/lib.rs:282-284 | every operation keeps only relevant threads, reconciliation exactly when its thread is in flight, subscribing or subscribed |
| Reducer.RelevantThreadsOnly | src/reducer/src/lib.rs:269-284 | over every such run each entry is subscribed, subscribing or has an active turn |
| Reducer.IdleReconcileAccumulates | src/reducer/src/lib.rs:330-348 | reconciling an "active" thread without an in-flight turn leaves an unprotected entry until the next eviction |
| Reducer.EvictIdleRestores | src/reducer/src/lib.rs:271-280 | eviction from any state removes exactly the irrelevant entries and counts them |
| Reducer.ReplayComplete | src/reducer/src/lib.rs:182-199 | an answer without a gap is every lifecycle event ever applied after the sequence, in order |
| Reducer.LossIff | src/reducer/src/lib.rs:137-139 | forgetting a prefix of the log changes an answer exactly when the prefix ends above the request |
| Reducer.GapIsRealIff | src/reducer/src/lib.rs:184-192 | a reported gap is a real loss exactly when the newest event that fell out of the log is newer than the request; never while the log is short of its capacity |
| Reducer.FalseAlarm | src/reducer/src/lib.rs:184-192 | on a feed of a delta and a lifecycle event a gap is reported although nothing was ever dropped |
| Reducer.MustGapIff | src/reducer/src/lib.rs:184-192 | a gap is reported exactly when some number between the request and the log is not in the log any more |
| Reducer.SwapRemoveParts | src/reducer/src/lib.rs:148 | swap-removal takes out exactly one waiter |
| Reducer.ScanServes | src/reducer/src/lib.rs:142-156 | one scan gives a waiter its first match, and nothing once it has one |
| Reducer.ScanKeeps | src/reducer/src/lib.rs:142-156 | one scan keeps, for all waiters, that each has received exactly its first match since registration |
| Reducer.Reducer.constructor | src/reducer/src/lib.rs:61-69 | an empty reducer |
| Reducer.Reducer.ApplyState | src/reducer/src/lib.rs:72-132 | the state critical section computes the specified step, pruning included |
| Reducer.Reducer.AppendLog | src/reducer/src/lib.rs:134-140 | the log becomes the last `capacity` lifecycle events |
| Reducer.Reducer.TakeReady | src/reducer/src/lib.rs:142-153 | the in-place scan splits the waiter multiset exactly into matching and kept |
| Reducer.Reducer.Send | src/reducer/src/lib.rs:154-156 | every ready waiter, and no other, receives the event |
| Reducer.Reducer.NotifyWaiters | src/reducer/src/lib.rs:142-156 | each waiter has received exactly the first matching event since its registration; no delivery is ever replaced |
| Reducer.Reducer.Apply | src/reducer/src/lib.rs:71-157 | state, log and waiters advance by the event; the entry shows the event, no other entry changes |
| Reducer.Reducer.RegisterWaiter | src/reducer/src/lib.rs:159-172 | a fresh waiter that counts from now |
| Reducer.Reducer.EventsSince | src/reducer/src/lib.rs:182-199 | a gap with the current snapshot exactly when a number after the request is missing below the log, or all lifecycle events applied after the sequence |
| Reducer.Reducer.SetSubscribed | src/reducer/src/lib.rs:201-219 | the thread is subscribed or not as asked, no longer pending, and no active turn and no other entry changes |
| Reducer.Reducer.BeginSubscription | src/reducer/src/lib.rs:224-236 | the thread is pending and has an entry; nothing readable about any thread changes |
| Reducer.Reducer.FinishSubscription | src/reducer/src/lib.rs:240-253 | the thread is subscribed even if its entry was pruned, and no active turn and no other entry changes |
| Reducer.Reducer.CancelSubscription | src/reducer/src/lib.rs:256-267 | the thread is no longer pending, its entry stays only if it is relevant, and nothing readable changes |
| Reducer.Reducer.EvictIdle | src/reducer/src/lib.rs:271-280 | removes the unprotected entries and returns how many |
| Reducer.Reducer.ReconcileThread | src/reducer/src/lib.rs:288-349 | the entry shows the newest turn that is not over, the status read, and keeps its subscription; no other entry changes |
| Streaming.Broadcast.Send | src/streaming/src/lib.rs:21-30 | the channel holds the last `capacity` values sent |
| Streaming.Broadcast.Receive | src/streaming/src/lib.rs:72-78 | the next value, or a lag that moves to the oldest value held |
| Streaming.EventHub.Publish | src/streaming/src/lib.rs:21-30 | the event goes to its own plane's channel only |
| Streaming.DeltaRunConserves | src/streaming/src/lib.rs:109-122 | in every interleaving delivered + dropped + ahead = sent since subscription, delivered in order without repeats |
| Streaming.DeltaStream.Recv | src/streaming/src/lib.rs:110-118 | returns the oldest delta still held and counts every one it skipped |
| Streaming.LifecycleStream.Recv | src/streaming/src/lib.rs:72-101 | delivers, replays the log above the cursor or reports a gap; the cursor goes to the event, the last one replayed or the snapshot |
| Streaming.RecoveriesNeverOverlap | src/streaming/src/lib.rs:79-97 | over every run a recovery contains, or stands for, only what is above the end of the item directly before it |
| Streaming.StepResumes | src/streaming/src/lib.rs:72-101 | every action keeps the cursor at the end of what was handed over |
| Streaming.QuietRecv | src/streaming/src/lib.rs:72-101 | the three atomic actions of a receive, undisturbed, are that one call |
| Streaming.IngressStep | src/ingest/src/lib.rs:100-104 | state before log before fan-out: the published events are a prefix of the logged ones, all below the snapshot |
| Streaming.StepInv | src/streaming/src/lib.rs:72-101 | every action but a forfeiting poll keeps that a consumer knows all events up to its position and mark |
| Streaming.NoSilentLoss | src/streaming/src/lib.rs:72-101 | in every interleaving, dropped receives included, without a forfeiting poll: each published event above `after` is ahead, came through, or is covered by a reported gap |
| Streaming.NoSilentLossUndropped | src/streaming/src/lib.rs:72-101 | the same for every run in which no `recv` is dropped in the middle of a recovery, dropping one that is waiting being harmless; nothing behind the receiver is left open between two calls |
| Streaming.SilentLossIff | src/streaming/src/lib.rs:72-101 | a run ever loses an event silently exactly when it contains a poll that yields a plain event after an abandoned recovery left events above the mark behind |
| Streaming.DroppedRecvLoses | src/streaming/src/lib.rs:72-80 | a run of three events in which a dropped `recv` loses the first |
| Streaming.ExactlyOnceAboveTheMark | src/streaming/src/lib.rs:72-101 | a consumer that ignores what is at or below its highest sequence accepts each event once, in order, missing nothing unreported |
| Streaming.RepeatIff | src/streaming/src/lib.rs:74-77 | a received event is one the consumer already knows of exactly when it is at or below its mark |
| Streaming.RedeliveryHappens | src/streaming/src/lib.rs:74-84 | a run in which an event arrives in a replay and again alone, and the cursor steps back |
| Transport.FateMeaning | src/transport/src/lib.rs:592-628 | a request's fate is decided by the first response with its id, or loss of the connection, after its frame |
| Transport.ExactlyOneVerdict | src/transport/src/lib.rs:550-629 | every request is in one place, written at most once, answered at most once, `NotWritten` exactly if never written, otherwise as the socket showed; none stays open once the connection is gone; a live loop drops nothing it took |
| Transport.FeedConsecutive | src/transport/src/lib.rs:334-339 | frames reach the ingress numbered 1, 2, 3, ... across every reconnect |
| Transport.StepInv | src/transport/src/lib.rs:395-510 | every loop and client step keeps each request in exactly one place, agreeing with the wire trace |
| Transport.StepExtends | src/transport/src/lib.rs:550-629 | no step takes back an answer |
| Transport.IssuedKept | src/transport/src/lib.rs:232-241 | an id stays with the client that drew it until it enqueues it |
| Transport.BackoffBounded | src/transport/src/lib.rs:405-465 | the reconnect delay stays between its initial and maximum value |
| Transport.DelayDoubles | src/transport/src/lib.rs:408-431 | after k failed attempts the delay has doubled k times, up to its maximum |
| Transport.ComesUpIff | src/transport/src/lib.rs:318-380 | a connection comes up exactly when the first answer to `initialize` ended the handshake and is no error, with the gate closed |
| Transport.ConnectionEndsIff | src/transport/src/lib.rs:555-629 | exactly which select arms end a connection, which of them end the loop, and that a lost one closes the gate |
| Transport.WriteKeeps | src/transport/src/lib.rs:556-570 | moving a request from the queue to the socket keeps every request in exactly one place, written at most once |
| Transport.RejectKeeps | src/transport/src/lib.rs:512-529 | answering a request taken from the queue `NotWritten` uses its oneshot for the first time, and no frame of it was ever written |
| Transport.RequestTaken | src/transport/src/lib.rs:557-564 | a request the connection takes is on the wire and pending, or answered `NotWritten` when the send failed |
| Transport.FrameTaken | src/transport/src/lib.rs:589-603 | every frame becomes the next event with its content, and a response settles the request it answers |
| Transport.HearKeeps | src/transport/src/lib.rs:592-598 | a response answers the pending request with its id for the first time, and a stray or repeated one answers nobody |
| Transport.DrainKeeps | src/transport/src/lib.rs:616-628 | at the end of a connection exactly the pending requests gain a verdict, which is unknown, each for the first time |
| Transport.AbandonKeeps | src/transport/src/lib.rs:485-508 | dropping the queue drops only requests that were neither written nor answered |
| Transport.NumberFrameKeeps | src/transport/src/lib.rs:591-600 | a frame takes the next number, so the feed stays 1, 2, 3, ... |
| Transport.UnissuedUnwritten | src/transport/src/lib.rs:232 | no frame ever carries an id that was not handed out yet |
| Transport.FeedGrows | src/transport/src/lib.rs:600 | no step takes back what was handed to the ingress |
| Transport.Connection.DrainPending | src/transport/src/lib.rs:616-628 | everything pending gets `WrittenOutcomeUnknown`, in whatever order |
| Transport.Connection.DriveConnection | src/transport/src/lib.rs:538-630 | a whole connection, interleaved with client steps, is a run of the state machine |
| Transport.Connection.ReadHandshake | src/transport/src/lib.rs:324-371 | numbers every frame of the handshake, stopping early on a closed ingress |
| Transport.Connection.Establish | src/transport/src/lib.rs:407-471 | one pass of the connection loop up to `drive` |
| Control.Controller.LockFor | src/control/src/lib.rs:95-102 | one lasting lock per thread, distinct threads never share one |
| Control.Controller.SendNotWrittenSafe | src/control/src/lib.rs:362-377 | at most `retries + 1` requests, all but the last proven unwritten, giving up on `NotWritten` only when retries are spent |
| Control.Controller.Await | src/control/src/lib.rs:133-144 | what the waiter yields is the first match among the events applied since registration |
| Control.Controller.Interrupt | src/control/src/lib.rs:104-216 | confirmed exactly by a completion of this turn since before the send or a read that shows it over; unknown and refused exactly as their replies say |
| Control.Controller.Start | src/control/src/lib.rs:232-306 | confirmed exactly by a returned turn id, with the first start observed as evidence exactly when it matches |
| Control.Controller.Steer | src/control/src/lib.rs:218-230 | confirmed on its thread and turn exactly by acceptance, unknown exactly when ambiguous, refused otherwise |
| Control.StepInv | src/control/src/lib.rs:308-377 | every action of every caller, client and connection keeps what each call knows true |
| Control.AtMostOneWrite | src/control/src/lib.rs:362-377 | all requests of one action together put at most one frame on the wire, in at most `retries + 1` tries |
| Control.OutcomesSound | src/control/src/lib.rs:119-215 | in every interleaving: `Rejected` means a daemon error or no frame ever; `Confirmed` means acceptance, and for interrupts the first completion of exactly that turn in the feed since a registration that precedes every frame of the action, or an accepted response to a later read of its own that shows it terminal |
| Control.OutcomesComplete | src/control/src/lib.rs:132-306 | the converse over every run: an accepted action is confirmed, an ambiguous one never refused, an unseen interrupt reads its thread |
| Control.DeliversTheVerdict | src/control/src/lib.rs:362-377 | a delivered reply says what the verdict says, and only a missing verdict can time out |
| Control.ObservesEverything | src/control/src/lib.rs:133-144 | an accepted interrupt finds any completion of its turn fired since its registration |
| Control.RegistersNow | src/control/src/lib.rs:115-125 | the waiter is registered when the lock is taken |
| Control.GateClosedSendsNothing | src/transport/src/lib.rs:227-231 | with the gate closed an action draws no id, writes nothing and is told `NotWritten` |
| Control.StepWatches | src/control/src/lib.rs:119-184 | every action keeps that each waiter was registered before any frame of its call and yielded the first match since, and that a read comes after |
| Control.ConfirmedInterruptedIff | src/control/src/lib.rs:132-200 | over every run an interrupt is confirmed with an interrupted turn exactly when the first completion since registration, or without one the read, has that status |
| Control.CompletedTurnConfirms | src/control/src/lib.rs:121-144 | an accepted interrupt of a turn that completed is confirmed |
| Control.RunsMeetTheContract | src/control/src/lib.rs:104-306 | in every interleaving each finished action has the replies and the outcome the sequential method specifies |
| Control.AmbiguousIsUnknown | README.md:256 | a written start or steer that no response settled is always reported as unknown |
| Control.OnePerThread | src/control/src/lib.rs:113-114 | actions on one thread run one at a time, also when callers drop them |
| Subscriptions.CapAndSingleFlight | src/ingest/src/lib.rs:161-251 | each call sends at most `max(1, limit)` resumes; with release off, or with no release recorded over a call in its loop, the cap holds and one call per thread resumes |
| Subscriptions.ResumesBounded | src/ingest/src/lib.rs:193-246 | each call sends at most `max(1, limit)` resumes in every run, whatever is released |
| Subscriptions.SingleFlightLostIff | src/ingest/src/lib.rs:161-192 | a run ever has two calls on one thread in the loop exactly when a `discover` finds room for a thread while a call over whose state a release was recorded is still in its loop |
| Subscriptions.ReleaseDoubles | src/ingest/src/lib.rs:381-410 | with release on, for every positive cap, a run with two calls on one thread in the loop |
| Subscriptions.CapLostIff | src/ingest/src/lib.rs:174-192 | a run ever exceeds the cap exactly when, with the map full, a call in its loop records its thread as held although it is not held any more |
| Subscriptions.OnlyClobberingBreaks | src/ingest/src/lib.rs:401-407 | single flight and the cap fail only in runs in which a release is recorded over a call in its loop |
| Subscriptions.SubscribedAgree | src/ingest/src/lib.rs:228-251 | a thread recorded as Subscribed is held as subscribed by the reducer, whatever cancellations race, unless an old release ends on it |
| Subscriptions.AgreementLostIff | src/ingest/src/lib.rs:401-407 | a run ever breaks the agreement exactly when a release ends on a thread that is recorded as subscribed or about to be |
| Subscriptions.LateDropDisagrees | src/ingest/src/lib.rs:401-407 | with release on, for every positive cap, a run that ends with a thread Subscribed in the map and unsubscribed in the reducer |
| Subscriptions.ProtectionLostIff | src/reducer/src/lib.rs:221-223 | a resuming call loses its protection exactly through another failed call's late cancellation or the late end of a release |
| Subscriptions.StaleCancelRace | src/ingest/src/lib.rs:236-244 | a run in which that happens |
| Subscriptions.MarksNeverLeak | src/ingest/src/lib.rs:192-251 | in every interleaving a thread protected as subscribing has a call that is still at it |
| Subscriptions.CheckPassesIff | src/ingest/src/lib.rs:381-392 | a release passes its check exactly if releases are on and the thread is idle or unknown |
| Subscriptions.CapHoldsIff | src/ingest/src/lib.rs:381-410 | the cap holds in every run exactly when idle release is off or the cap is zero |
| Subscriptions.ReleaseOverfills | src/ingest/src/lib.rs:381-407 | with release on, for every positive cap, a run in which a release that passed its idle check exceeds the cap by one |
| Ingest.AuthoritativeIngress.Process | src/ingest/src/lib.rs:100-104 | reducer, store and then the channels advance by the event; the channels carry exactly what was applied |
| Ingest.AuthoritativeIngress.Drain | src/ingest/src/lib.rs:106-110 | the feed is applied and recorded whole and in order, and the store retains what recording it event by event leaves |
| Ingest.InFlightMeansActive | src/ingest/src/lib.rs:442-479 | a thread with an in-flight turn reads as active |
| Ingest.AdoptionRelevantIff | src/ingest/src/lib.rs:365-375 | adopting and discovering an active thread keeps the reducer relevant exactly when the cap did not turn it away, or it is in flight, or it was protected |
| Ingest.ThreadIngestor.AdoptOne | src/ingest/src/lib.rs:365-375 | the same for the method, with the exact condition for being turned away; no other thread's state changes |
| Ingest.IdleAdoptionAccumulates | src/ingest/src/lib.rs:365-375 | with another thread in the only place, an active thread without an in-flight turn leaves an unprotected entry |
| Ingest.CandidatesMeaning | src/ingest/src/lib.rs:326-340 | the candidates are a prefix that ends at the limit, the end, or the first entry at the watermark; the mark rises to exactly the newest timestamp looked at |
| Ingest.ThreadIngestor.ScanPage | src/ingest/src/lib.rs:325-340 | scanning one page leaves exactly the rest of the one-pass scan to do |
| Ingest.ThreadIngestor.CollectCandidates | src/ingest/src/lib.rs:302-349 | paging equals one pass over the flat listing of at most `pageBound` pages and stops only at a bound, the last page or the watermark, which never decreases and is unchanged on error |
| Ingest.ThreadIngestor.AdoptActive | src/ingest/src/lib.rs:351-379 | exactly the candidates whose own read shows an active status or a turn that is not over are discovered, in order; no other thread's state changes |
| Ingest.ThreadIngestor.Resume | src/ingest/src/lib.rs:196-246 | resumes again only after an unwritten, ephemeral or overloaded reply, at most up to the limit, and always while it may |
| Ingest.ThreadIngestor.Settle | src/ingest/src/lib.rs:228-283 | records the final state and promotes, or cancels, in the reducer |
| Ingest.ThreadIngestor.ReadBack | src/ingest/src/lib.rs:254-277 | adopts the read and anchors its newest turn that is not over exactly when its start is not retained |
| Ingest.ThreadIngestor.Discover | src/ingest/src/lib.rs:161-283 | each outcome with its exact condition and state, an ephemeral rejection ending as ephemeral; the mark withdrawn, the read adopted; bound on resumes; cap and agreement kept |
| Ingest.QuietDiscoverRun | src/ingest/src/lib.rs:161-283 | undisturbed, the interleaved actions of one call that finds room are this method: same states, reducer, outcome and number of resumes |
| Threads.FirstByIdMeaning | src/core/src/threads.rs:108-112 | the listing keeps exactly the first occurrence of every id, in order |
| Threads.ThreadController.ListAll | src/core/src/threads.rs:88-124 | asks first without a cursor and then for each page's next, no cursor twice, at most one request more than cursors, first occurrences over all pages, repeated cursor exactly when the chain revisits one |
| Pipeline.ReplayOfTransportFeed | src/reducer/src/lib.rs:182-199 | on any feed the transport produces, a replay is exactly the lifecycle events after the sequence |
| Pipeline.NoSilentLossEndToEnd | src/ingest/src/lib.rs:99-104 | no silent loss from the socket to the consumer, and a loss exactly through a forfeiting poll |

## Left out

- Sockets, the WebSocket handshake, ping and pong timing, tokio scheduling and clocks: time is a parameter, a time-out is a step that may happen at any moment.
- JSON values and serde: an event carries the fields the core reads, its plane and its encoded size are given. `plane_for_method` and the string matching of resume errors are inputs.
- 64-bit wrap-around of sequences, ids and counters. Sequences are unbounded except in `events_since`, whose saturating addition is written out; results that need it assume a feed of at most 2^64 - 1 frames. The saturating additions of `query_time` are plain additions.
- A failed `socket.send` is taken as "no frame was written", as the code does.
- tokio rounds channel capacities up to a power of two; the results hold for every positive capacity.
- Reducer.Reducer.Apply: performs its three critical sections in one call; `Streaming.System` interleaves them.
- Threads.ThreadController.ListAll: assumes that the server's cursors come from some finite set; against a server that invents new cursors for ever the code does not terminate.
- Ingest.ThreadIngestor.Discover: has nothing running beside it; concurrent calls are `Subscriptions`.
- Ingest.ThreadIngestor.CollectCandidates: covers sequential calls. Two overlapping reconciliations may store their watermarks in either order.
- Control.Controller.Interrupt: the client's replies and the events applied while it waits are parameters; the composition with the transport is `Control.System`, tied to it by `Control.RunsMeetTheContract`.
- Control.OutcomesSound: an interrupt's `thread/read` is a request of its own on the wire; what thread its accepted response carries is a parameter, as frames carry no results.
- Control.OnePerThread: is about calls; the frame of a call that was dropped may still be written after its lock is released.
- Ingest.AdoptionRelevantIff: assumes that the daemon answers a read of a thread with that thread.
- `reactivation_verified` and the release switch are one constant flag; the code lets the former change between two releases.
- Freshness of the action gate per connection: `mark_reconciled` opens the gate before its command is consumed, so no such claim is made.
- Order of query results by sequence: results keep recorded order, and a reconstructed anchor may carry an older sequence than events recorded before it.
- `status`, `ephemeral` and `raw_thread` of a reducer entry are modelled, but pruning may forget them, so no agreement is claimed for them.
- `unsubscribe_all_best_effort`, health reporting, supervision of the GUI and daemon, hooks, skills and the generated protocol types.
