# Seatd: model and proofs

Seatd runs the floor of a restaurant: staff and guests occupy and clear tables and ask for
assistance, an outbox carries the resulting events to consumers, a realtime gateway fans them out to
connected clients, vendor systems are reconciled with the floor, and analytics are projected from
sessions and assists. This project models the parts of the Go backend whose correctness spans
several functions or whole runs, and proves that they keep what they are for.

A database transaction is one atomic step. Outbox workers and the realtime hub are interleaved
steps. Ids and clock readings that the code draws are inputs, so a colliding id is an ordinary
error and not an assumption. Statements that the queries define are modelled from their SQL.

## How it is laid out

- `Operations` has the rows of one location and every table and assist command as a function of
  them; `OperationsStore` is the same command runner with rows updated in place, each method tied to
  its function. `CommandGuards` says when a command is executed, and
  `TableHistory`, `AssistHistory`, `GuestCooldown` and `Retries` what every run of commands keeps.
- `Sync` has the snapshot, the cursor and the pages of `GET /events`, with pages described by their
  SQL and read by the source's loop; `SyncAssists` has the active requests of the snapshot.
- `Outbox` and `OutboxStore` have the outbox tables and one worker's pass; `OutboxProtocol`
  interleaves any number of workers with crashes, expired leases, lost commits and late writes;
  `OutboxPass` shows that a pass alone there is the pass of the store; `OutboxRetry` has locks, attempts
  and backoff, `OutboxDelivery` the duplicate bound, `OutboxSettling` the bound on claims and when settled
  rows are final; `EventDelivery` joins them to the rows that commands write.
- `RealtimeHub` has the hub and its clients as objects, one call at a time; `HubProtocol` has every
  lock section, counter and channel read as a step and proves the delivery guarantee under all
  interleavings; `HubOrder` proves when publications are handed over in order, `HubProgress` that calls in
  flight can always be completed, `HubCounters` what the counters count, and `HubAlone` that a publication
  alone has the effect stated of the object's method.
- `Reconcile` and `ReconcileStore` drive the command machine toward a vendor's table states;
  `ReconcileReview` says from the log when they leave an entry for review.
- `Analytics` has the interval arithmetic, `AnalyticsRates` what its figures and rates count, `Rebuild` and
  `RebuildStore` the projection by delete and insert, `ProjectionRows` each of its rows written out,
  `ProjectionTotals` their agreement, `ServicePeriods` the period windows and clock strings.
- `WebSocket` and `WebSocketConnection` have frame encoding and the read loop, `RateLimiter` the guest
  limiter, `Memberships` and `MembershipStore` the ownership rules, `OwnerRace` those rules when count
  and write of two transactions interleave.

`OperationsStore`, `OutboxStore`, `ReconcileStore`, `MembershipStore`, `RebuildStore` and
`WebSocketConnection` are the source's own imperative form of the module they are named with, and each of
their methods ensures that the new state and the result are that module's function of the old state.
`RealtimeHub` states its effects directly; `HubAlone` and `OutboxPass` tie the two protocols to the objects.

## What the code does not give, and exactly when it does

- A processed outbox record does not stay processed while an older claim of it is in flight, since the
  marks do not look at `locked_by` (`OutboxSettling.LateWriteTakesProcessedBack` is such a run). It stays
  processed if and only if no such late write follows (`OutboxSettling.StaysProcessedIff`); where leases
  outlast passes, so that rows are reclaimed only from stopped workers, none does and settled records are
  final (`OutboxSettling.SettledIsFinal`).
- maxAttempts does not always bound the claims of a record. Where rows are reclaimed only from stopped
  workers it does unless the one pass that drew the record's last attempt crashes or loses its last update;
  the next claim can exceed it if and only if that pass was dropped, or is still at work when its lease runs
  out (`OutboxSettling.BoundBreaksIff`). `OutboxSettling.LostUpdateBreaksTheBound` and
  `OutboxSettling.OverlapBreaksTheBound` are runs of the two kinds. A lost update is ordinary: when one record
  of a batch fails, `errgroup` cancels the updates of the others.
- A guest's next request need not be stamped two minutes after an ended one: the row is stamped when the
  transaction begins, and the cooldown is looked at after any wait for the table. The bound is the cooldown
  less that wait, and it is reached for every wait (`GuestCooldown.WaitShortensCooldown`).
- Sessions of a table are stamped when their transactions begin, so an occupying transaction that waits for
  a clearing one can overlap it. They never overlap if and only if each occupying transaction began no
  earlier than the clearing ones before it (`TableHistory.EveryRunDisjointIff`).
- The retry delay is the capped doubling if and only if the doubling fits an int64
  (`OutboxRetry.BackoffIsCappedDoubling`); from attempt 35 on, with one second and one minute, it is
  negative, so the record is due at once.
- `Projector.Handle` rebuilds the event's local date if and only if the zone is not ahead of UTC
  (`Rebuild.HandleRebuildsEventDateIff`); ahead of UTC it rebuilds the day before.
- Reassigning ownership leaves no owner if and only if the old owner is the only one and the target
  already holds an enabled read-only membership (`Memberships.ReassignLosesOwnerIff`).
- The frame reader does not check the reserved bits or the shortest length form that section 5.2 of
  RFC 6455 demands; its input is what a conforming client sends if and only if both hold
  (`WebSocket.AcceptedIsSentIff`).
- A service-period window is empty if and only if it runs from 24:00 to 00:00, which the column type
  allows and no clock string gives; `ParseClock` inverts `FormatClock` if and only if the time is a
  whole second before 24:00.
- A reconciliation run completes if and only if every entry has an id and one of the two known statuses
  (`Reconcile.ReconcileCompletesIff`): the tables refuse the rows of any other, also where the code would
  only have asked for a review. The reference adapter drops such entries
  (`Reconcile.ReferenceRunCompletes`), so the failure needs another adapter.
- The rate limiter admits one call less than two full buckets in a window, because the older bucket
  was opened by a call before it; the bound 2 x limit - 1 is reached for every limit and window.
- The cooldown of guest requests looks at ended requests only. A request is admitted if and only if every
  earlier one of its session and action is acknowledged, or has ended and is old enough
  (`GuestCooldown.AdmittedIff`); `GuestCooldown.AcknowledgedDoesNotHold` is a run with two requests two
  seconds apart.
- Replays match a command by id, type and payload hash only, and the hash covers the body. A replayed
  table command answers for its own table if and only if that is the first command's
  (`Retries.ReplayIsForItsTableIff`, with `Retries.ReplayForAnotherTable` as the run in which it is not).
- Two transactions that disable or demote owners may each count the other's. When all that counted have written,
  no owner is left if and only if every owner was locked by one of them
  (`OwnerRace.RaceLosesOwnersIff`, `OwnerRace.RaceExample`); one transaction at a time keeps an owner.
- Overlapping publications may reach a client in either order, if and only if both have the client ahead of
  them (`HubOrder.OrderMayTurnIff`); those that do not overlap arrive in order.

## Model

| member | source | states |
|---|---|---|
| OperationsStore.Store.OccupyTable | internal/domain/operations/service.go:389-443 | not found, already occupied, version conflict or refused session in the source's order; else one new open session and the row occupied by it, one version up |
| OperationsStore.Store.ClearTable | internal/domain/operations/service.go:445-502 | the error cases in order; else the current open session ends at the transaction's start and the row is available, one version up |
| OperationsStore.Store.RequestAssist | internal/domain/operations/service.go:185-233 | a pending request at version 1 for the table's current session, or not found, or a refused row |
| OperationsStore.Store.ChangeAssist | internal/domain/operations/service.go:323-387 | version check, then resolved-twice, then the transition table; else the new status, one version up |
| OperationsStore.Store.CreateGuestRequest | internal/domain/operations/guest.go:143-258 | disabled action, missing table, no session, the pending request there already is (unannounced), cooldown, or a new pending request |
| OperationsStore.Store.CancelGuestRequest | internal/domain/operations/guest.go:291-357 | only a pending guest request of the capability's own table is cancelled, one version up |
| OperationsStore.Store.InsertOperationalEvent | internal/domain/operations/service.go:707-806 | one event and one outbox row per destination in order, or nothing when the event id is taken |
| OperationsStore.Store.RunInTx | internal/domain/operations/service.go:566-650 | each command goes to its own transaction body and says whether an event is due |
| OperationsStore.Store.RunTenantCommand | internal/domain/operations/service.go:566-705 | replay, conflict, or execute, announce, encode and record, all or nothing; the rows stay a state in which a pending guest request is unique |
| OperationsStore.Store.Rollback | internal/domain/operations/service.go:812-817 | an error leaves the rows the transaction started from |
| CommandGuards.ChangeFoundItsVersion | internal/domain/operations/service.go:323-387 | a staff change of a request that is executed found it at the version its caller had seen, and made one of the five legal moves by one version |
| CommandGuards.ChangeExecutedIff | internal/domain/operations/service.go:323-387 | with fresh ids and a working encoder it is executed if and only if the request is at that version and the move is legal; another version is a conflict, an illegal move is refused as such, and neither changes anything |
| CommandGuards.CancelFoundItsOwn | internal/domain/operations/guest.go:291-357 | a guest's cancellation that is executed found a pending guest request of the capability's own table |
| CommandGuards.CancelExecutedIff | internal/domain/operations/guest.go:291-357 | and with fresh ids it is executed if and only if there is one; a request of another table is not found |
| CommandGuards.OccupyExecutedIff | internal/domain/operations/service.go:389-443 | with a fresh command an occupying command is executed if and only if the table is live, available and at the expected version, with a session id that is new and a party that is not empty; each refusal has its own answer |
| CommandGuards.ClearExecutedIff | internal/domain/operations/service.go:445-502 | in every reachable state a clearing command is executed if and only if the table is live, occupied, at the expected version and its session began no later; an occupied table never lacks its open session |
| CommandGuards.StaffRequestIff | internal/domain/operations/service.go:185-242 | a staff request is made if and only if the table is live and the id new: pending, for the current session, at version 1, never recorded or replayed |
| CommandGuards.KeysAreWords | internal/domain/operations/guest.go:33 | an action key is valid if and only if it is a small letter and then small letters, digits and underscores, 2 to 64 characters |
| CommandGuards.GuestAnswers | internal/domain/operations/guest.go:143-198 | what a guest's submission is refused with: a bad or disabled key, no capability, no live table, no session |
| CommandGuards.RefusedBeforeReplay | internal/domain/operations/guest.go:143-161 | a guest's bad key or capability is refused before earlier commands are looked up |
| CommandGuards.UnencodedKeepsNothing | internal/domain/operations/service.go:566-650 | a response that cannot be encoded keeps nothing of the command, nor does a guest's without an encoder |
| CommandGuards.PendingIsAnswered | internal/domain/operations/guest.go:188-198 | while a request of the action is pending a guest gets that one, and only the answer is recorded |
| CommandGuards.EventIsStamped | internal/domain/operations/service.go:707-780 | an executed command logs nothing or one event, with the id and the time that the process drew |
| CommandGuards.AnswerIsEncoded | internal/domain/operations/service.go:566-650 | the answer to an executed command is its value as the encoder puts it, or 200 and an empty object without one |
| CommandGuards.LayoutEdits | internal/store/queries/layout.sql:187-206 | the layout edits that commands depend on: a table is added once, available and live, and goes and comes back with its occupancy |
| CommandGuards.OneCommandPerVersion | internal/domain/operations/service.go:323-502 | in every run at most one command is executed per row and expected version, for tables and requests: of two callers who saw the same version one is refused |
| TableHistory.AssistCommandEffect | internal/domain/operations/service.go:185-387 | assist commands leave occupancy and sessions alone and log at most one event, of an assist |
| TableHistory.ApplyAgrees | internal/domain/operations/service.go:389-502 | every committed step keeps rows, sessions and replayed log in agreement |
| TableHistory.EveryRunAgrees | internal/domain/operations/service.go:389-502 | in every reachable state a table is occupied exactly when its current session is open and its own, no other session of it is open, and replaying its log gives exactly the stored status, session and version |
| TableHistory.EveryRunDisjointIff | internal/domain/operations/service.go:389-502 | at every point of a run the sessions of a table do not overlap if and only if every transaction that occupied it began no earlier than those that had cleared it; failed commands, replays and other tables do not matter |
| TableHistory.WaitingOccupyOverlaps | internal/domain/operations/service.go:389-502 | a run in which an occupying transaction begins before the clearing one and waits for it, and two sessions overlap |
| TableHistory.EveryRunForward | internal/domain/operations/service.go:445-502 | in every run, whatever the clocks, a session that has ended did so no earlier than it started |
| TableHistory.EveryRunPast | internal/domain/operations/service.go:389-502 | no session is stamped later than the transactions of the run began |
| Retries.RecordedWhenSucceeded | internal/domain/operations/service.go:675-705 | an idempotency row exists for an id exactly when an earlier command with that id succeeded |
| Retries.FirstSuccessIsDone | internal/domain/operations/service.go:566-673 | a command executes and succeeds exactly when it is the first success of its id |
| Retries.RetriesHaveNoEffect | internal/domain/operations/service.go:566-705 | a run with any retries ends in the same rows, log and outbox as the run of first successes only |
| Retries.RetryAnswer | internal/domain/operations/service.go:652-673 | every later attempt with the id gets the first status and body if type and hash match, else a conflict, and changes nothing |
| Retries.ReplayIsForItsTableIff | internal/domain/operations/service.go:652-673 | a replayed table command answers for the first command's table, so for its own if and only if both name the same table |
| Retries.ReplayForAnotherTable | internal/domain/operations/service.go:652-673 | a run from the empty store in which the same id, type and hash for table 8 answers for table 7 and leaves table 8 available |
| Retries.EveryRunFansOut | internal/domain/operations/service.go:707-810 | the outbox is the log fanned out over the three destinations in log order, and event ids are distinct |
| AssistHistory.CommandExplained | internal/domain/operations/guest.go:143-357 | every committed command is one of: no assist change, one new pending request, one legal move; with exactly the matching event |
| AssistHistory.ChangeKeepsOnePending | internal/domain/operations/guest.go:143-258 | each such change keeps at most one pending guest request per session and action |
| AssistHistory.EveryRunAssists | internal/domain/operations/guest.go:143-357 | in every run at most one pending guest request per session and action, and every assist's events replay to its stored status and version |
| AssistHistory.EventsSpellThePath | internal/domain/operations/service.go:323-387 | the events of an assist are one legal path from pending of at most two moves, versions 1, 2, 3 without gaps, ending at the stored row |
| AssistHistory.TerminalIsForever | internal/domain/operations/service.go:834-843 | no later step of any run changes a resolved or cancelled request |
| GuestCooldown.InsertedAfterCooldown | internal/domain/operations/guest.go:199-216 | a guest request that a command inserts is later than every ended one for the same session and action by at least two minutes less the time between the command's transaction start and its look at the cooldown |
| GuestCooldown.EndedRequestsAreSpaced | internal/domain/operations/guest.go:199-216 | and so in every run, less the longest such wait, for a request made after an earlier one had ended |
| GuestCooldown.WaitShortensCooldown | internal/domain/operations/guest.go:199-216 | for every wait, a run from the empty store that reaches this bound |
| GuestCooldown.AdmittedIff | internal/domain/operations/guest.go:143-258 | a guest's first submission with a valid key and fresh ids is executed with a new request if and only if every earlier one of the table, session and action is acknowledged, or has ended and was made two minutes before this one looks, or more |
| GuestCooldown.AdmittedInsideCooldownIff | internal/domain/operations/guest.go:188-216 | when only one earlier request is younger than the cooldown and no other is pending, such a submission gets a new request if and only if that one is acknowledged |
| GuestCooldown.YoungOneIsAcknowledged | internal/domain/operations/guest.go:188-216 | whatever command inserts a guest request by less than two minutes less its own wait after an earlier one, the earlier one is acknowledged |
| GuestCooldown.AcknowledgedDoesNotHold | internal/domain/operations/guest.go:188-216 | a run from the empty store in which a request two seconds after an acknowledged one is admitted |
| Sync.LoadEventsAfter | internal/realtime/sync.go:161-212 | one message per row in order, and the cursor of the last row, or the old cursor for an empty page |
| Sync.PageIsSlice | internal/realtime/sync.go:161-212 | for a log in commit order the page after a cursor is exactly the next slice of at most the limit, and a short page reaches the end |
| Sync.PagingIsComplete | internal/realtime/http.go:181-215 | repeated pages, over a log that may grow meanwhile, give the events after the cursor each once and in order; a short page means nothing is left |
| Sync.FullPagesUseTheLogUp | internal/realtime/http.go:181-215 | full pages of limit at least 1 use up a finished log, so paging comes to a short page |
| Sync.SnapshotCursorAtEnd | internal/realtime/sync.go:46-63 | the snapshot's cursor stands behind the last event of a log in commit order |
| Sync.SuffixDecides | internal/domain/operations/service.go:707-806 | a later part of the log either has nothing for a table or has the event that carries its final version |
| Sync.ReceiveSettles | internal/realtime/sync.go:65-118 | a view that takes the higher version never overshoots and reaches the newest occupancy once its event is among the messages |
| Sync.KeysAreOrdered | internal/realtime/sync.go:161-212 | the keys of events are ordered by time first, and totally |
| Sync.SnapshotIsTheFloor | internal/realtime/sync.go:65-118 | after any run a table is in the snapshot if and only if it has a row and is live, and its entry is what replaying the log gives |
| Sync.DeliveryInAnyOrder | internal/realtime/http.go:146-215 | a snapshot advanced by the later events in any order, with repeats, shows exactly the tables on the floor when it was taken, each at its current occupancy |
| Sync.SnapshotThenPages | internal/realtime/http.go:146-215 | cursor, then tables read by a later statement, then pages until a short one: exactly the events behind the cursor, each once and in order, and they bring every table on the floor, and no other, to its current occupancy |
| SyncAssists.SuffixShows | internal/realtime/sync.go:120-159 | from any point of the log on, either no event touched a request, or what a receiver shows of it is what the whole log says |
| SyncAssists.AssistsThenPages | internal/realtime/sync.go:120-159 | the active requests of a snapshot, read by a statement after the cursor, are brought to exactly the current ones by the pages behind the cursor, though those begin with events the statement had seen |
| Outbox.ChosenIsOldestFirst | internal/outbox/outbox.go:223-295 | a claim takes claimable rows only, at most the batch, in creation order, and leaves none older behind that it could have locked |
| Outbox.WalkKeepsDone | internal/outbox/outbox.go:331-396 | a consumer that is done for an event stays done however the rest of a record is walked |
| Outbox.WalkSucceedsWhenAllDone | internal/outbox/outbox.go:297-329 | a pass over a record succeeds if and only if every consumer still to walk is done for its event afterwards |
| OutboxStore.Store.Enqueue | internal/domain/operations/service.go:793-803 | a new row is pending, due now, unlocked and unattempted |
| OutboxStore.Store.Claim | internal/outbox/outbox.go:223-295 | the chosen rows become processing under this worker's lock with one more attempt; no other row changes |
| OutboxStore.Store.MarkProcessed | internal/outbox/outbox.go:398-412 | the row is processed and unlocked, whoever holds it |
| OutboxStore.Store.MarkFailed | internal/outbox/outbox.go:438-455 | the row is failed and unlocked |
| OutboxStore.Store.RetryOrFail | internal/outbox/outbox.go:414-436 | failed at the last attempt, else pending again after the backoff of the attempts the worker read |
| OutboxStore.Store.StartConsumer | internal/outbox/outbox.go:331-372 | the idempotency row is there afterwards and tells whether the consumer is already done |
| OutboxStore.Store.MarkConsumer | internal/outbox/outbox.go:457-488 | an existing consumer row takes the status; a missing one stays missing |
| OutboxStore.Store.HandleConsumer | internal/outbox/outbox.go:331-396 | done consumers are skipped; otherwise the row ends done or errored as Handle answered |
| OutboxStore.Store.ProcessRecord | internal/outbox/outbox.go:297-329 | undecodable rows fail; otherwise consumers are walked up to the first error and the row is processed or retried |
| OutboxProtocol.EveryRunSafe | internal/outbox/outbox.go:223-488 | under every interleaving of workers with crashes, expired leases, lost commits and late writes, whatever a consumer row or a record says is done has been handled, and every job in flight has handled the consumers behind it |
| OutboxProtocol.ProcessedMeansHandled | internal/outbox/outbox.go:297-396 | a record marked processed has had Handle succeed for its event in every consumer of its destination or, failing that, its topic |
| OutboxPass.WalkAlone | internal/outbox/outbox.go:331-396 | from any consumer on, the committed statements of one job with nothing between them leave the consumer rows of the uninterrupted walk |
| OutboxPass.PassAlone | internal/outbox/outbox.go:297-329 | and from a claim on, the consumer rows and the outbox row that the object's pass leaves, and no job |
| OutboxRetry.EveryRunLocks | internal/outbox/outbox.go:238-270 | a record is processing exactly when its lock is set |
| OutboxRetry.UnsettledStaysClaimable | internal/outbox/outbox.go:238-270 | a record is claimable exactly when it is unsettled, routed and past a known time: none is stranded |
| OutboxRetry.WalkedIff | internal/outbox/outbox.go:316-323 | a consumer is walked for a record if and only if it is listed for the destination or, when none is, for the topic |
| OutboxRetry.OwnRecordsAreClaimed | internal/outbox/outbox.go:238-262 | a worker claims only records whose destination or topic it lists, unless it lists nothing, and all of those when they are due, unlocked and fit the batch |
| OutboxRetry.NewRowIsDue | internal/domain/operations/service.go:793-803 | a new row carries its event, topic and destination and can be claimed at once and not before |
| OutboxRetry.ClaimedRowIsLeased | internal/outbox/outbox.go:238-270 | a claimed row is the worker's, and can be claimed again exactly when its lease has run out |
| OutboxRetry.AttemptsCountClaims | internal/outbox/outbox.go:238-270 | attempts are the number of claims in the run: one more per claim, never reset |
| OutboxRetry.ProcessedLeftOnlyByStaleWrite | internal/outbox/outbox.go:398-488 | a processed record leaves that status exactly by a committed write of a worker that still holds an earlier claim |
| OutboxRetry.SettledAtRestIsFinal | internal/outbox/outbox.go:398-455 | a record processed or failed while no worker holds it stays as it is in every continuation |
| OutboxRetry.BackoffIsCappedDoubling | internal/outbox/outbox.go:543-550 | the delay is the capped doubling exactly as long as the doubling fits an int64; past it it is negative |
| OutboxRetry.BackoffGrows | internal/outbox/outbox.go:543-550 | up to there later attempts never wait less, and never more than the cap |
| OutboxRetry.BackoffOverflows | internal/outbox/outbox.go:543-550 | with one second and one minute, attempt 35 has a negative delay |
| OutboxRetry.RetriedRowIsDueAfterItsWait | internal/outbox/outbox.go:414-436 | once the update of attempt n has committed, while the doubling fits an int64, the row can be claimed exactly from base x 2^(n-1), or the cap, after it on |
| OutboxRetry.LastAttemptFails | internal/outbox/outbox.go:414-436 | at the last attempt the row is failed and can never be claimed again |
| OutboxRetry.LaterRetriesWaitNoLess | internal/outbox/outbox.go:414-436 | a row retried after a later attempt is never due sooner |
| OutboxRetry.WaitDoubles | internal/outbox/outbox.go:543-550 | below the cap each attempt waits twice as long as the one before, the first the base, and at the cap the cap |
| OutboxSettling.EveryExclusiveRunHolds | internal/outbox/outbox.go:223-295 | when rows are reclaimed only from stopped holders, every job in flight is the last claim of a row that is still processing |
| OutboxSettling.SettledIsFinal | internal/outbox/outbox.go:398-455 | in every such run a processed or failed record never changes again |
| OutboxSettling.StaysProcessedIff | internal/outbox/outbox.go:398-488 | in any run a processed record is processed at every later point if and only if no step since is a committed late write to it |
| OutboxSettling.LateWriteTakesProcessedBack | internal/outbox/outbox.go:398-436 | a run from the empty outbox in which an overtaken worker's retry makes a processed record pending again |
| OutboxSettling.EveryExclusiveRunTends | internal/outbox/outbox.go:223-455 | in every such run, with any crashes and lost updates: a pending record is below the cap, a processing one at the cap is held by the pass that drew it or that pass was dropped, attempts pass the cap only after it was dropped, and until then a dropped one stays processing and unheld |
| OutboxSettling.SettlesWithinMaxAttempts | internal/outbox/outbox.go:414-436 | in every such run a record is claimed at most maxAttempts times (once at least), and one that was claimed so often and is held by nobody is settled, unless the one pass that drew its last attempt ended without its last update; all other passes may crash or lose theirs |
| OutboxSettling.FailsAtMaxAttempts | internal/outbox/outbox.go:414-455 | with the same proviso, a decodable record with a consumer that never succeeded is settled, once nobody holds it, if and only if it was claimed maxAttempts times, and then it is failed |
| OutboxSettling.BoundBreaksIff | internal/outbox/outbox.go:238-270 | in every such run still within the bound, one more claim of an unheld record can exceed it if and only if the pass that drew the last attempt was dropped, and one more claim of any kind if and only if that pass was dropped or is still at work |
| OutboxSettling.LostUpdateBreaksTheBound | internal/outbox/outbox.go:191-199 | with maxAttempts 1, a run without crash or overlap in which the last update of one pass is lost and the record is claimed twice |
| OutboxSettling.OverlapBreaksTheBound | internal/outbox/outbox.go:238-270 | with maxAttempts 1 and a lease shorter than the pass, a run whose every statement commits claims a record twice |
| OutboxDelivery.EveryRunOrderly | internal/outbox/outbox.go:331-396 | when rows are reclaimed only from stopped holders and a consumer reaches an event by one row, successes of a key are its lost marks plus its done mark plus the one in a worker's hands |
| OutboxDelivery.AtMostOnceBesidesLostMarks | internal/outbox/outbox.go:331-396 | under the same conditions Handle succeeds at most once more than its done marks were lost |
| EventDelivery.CommandsRouteOnce | apps/worker/cmd/worker/main.go:141-150 | the rows that commands write satisfy that condition for the deployed consumers: one row per consumer and event |
| EventDelivery.EveryEventHasItsRows | internal/domain/operations/service.go:707-810 | event k of any run of commands has row 3k + m for its m-th destination, and that row reaches the consumers deployed for it |
| EventDelivery.CommandsHandledOnce | internal/outbox/outbox.go:297-396 | over the rows of any run of commands, in any run of workers that reclaims rows only from stopped holders, a consumer has handled the event of a processed row, and at most once more than its done marks were lost |
| RealtimeHub.Client.TrySend | internal/realtime/hub.go:188-200 | a message is queued exactly when the client is open and has room; otherwise nothing changes |
| RealtimeHub.Client.Close | internal/realtime/hub.go:202-211 | the client is closed, once or again |
| RealtimeHub.Hub.Register | internal/realtime/hub.go:81-86 | the client joins its scope's set, which is made if missing |
| RealtimeHub.Hub.Deregister | internal/realtime/hub.go:93-101 | the client leaves its scope's set, and an emptied set leaves the map |
| RealtimeHub.Hub.Subscribe | internal/realtime/hub.go:71-90 | a new open client with an empty queue of the given or default size is registered in its scope, and nobody else moves |
| RealtimeHub.Hub.Unsubscribe | internal/realtime/hub.go:92-105 | the client is closed and off the map with its queue intact; a second call changes nothing |
| RealtimeHub.Hub.Offer | internal/realtime/hub.go:126-138 | one client gets the message, or is counted as dropped, closed and removed |
| RealtimeHub.Hub.Broadcast | internal/realtime/hub.go:125-139 | every client of the snapshot with room gets the message and stays; exactly the full ones are closed, removed and counted |
| RealtimeHub.Hub.Publish | internal/realtime/hub.go:107-140 | the same for all clients of the event's scope; the other scopes' entries of the map and their clients stay as they were |
| RealtimeHub.Hub.MetricsSnapshot | internal/realtime/hub.go:142-157 | the sum over scopes is the number of registered clients and equals accepted minus closed |
| HubProtocol.StepMap | internal/realtime/hub.go:81-105 | every step keeps the map listing exactly the clients not yet removed, without empty scopes |
| HubProtocol.StepOnce | internal/realtime/hub.go:92-105 | every step keeps a client inside its close-once exactly while one call in flight is in there for it |
| HubProtocol.StepChannels | internal/realtime/hub.go:188-211 | no step sends on or closes a closed channel |
| HubProtocol.PanicsIff | internal/realtime/hub.go:188-211 | the steps that would panic: a send on a closed channel and a second close of one |
| HubProtocol.StepDelivers | internal/realtime/hub.go:107-140 | every step keeps: a client is handed only what is due, once, and an open one lacks nothing that no call in flight still owes it |
| HubProtocol.EveryRunAgrees | internal/realtime/hub.go:71-211 | all of these in every interleaving of subscribe, publish, unsubscribe, close and dequeue |
| HubProtocol.QuietMeansDelivered | internal/realtime/hub.go:71-211 | once no call is in flight an open client has been handed every message of its scope published since it subscribed, each once; one that missed a message is closed and off the map; no channel was misused |
| HubProtocol.QuietMeansCounted | internal/realtime/hub.go:87-104 | once no call is in flight, accepted minus closed is the number of registered clients |
| HubProtocol.EveryRunActive | internal/realtime/hub.go:142-149 | in every run the reported number of active connections is the number of registered clients |
| HubProgress.ClosersThrough | internal/realtime/hub.go:92-105 | from any reachable state all calls in a close-once, and those waiting for one, come through by steps of their own |
| HubProgress.EveryRunCanComplete | internal/realtime/hub.go:71-140 | from every state of every run the calls in flight can be completed by steps of their own, without a reader and without a new call: nothing deadlocks |
| HubCounters.EveryRunAccounts | internal/realtime/hub.go:107-140 | in every run the messages handed over, those still ahead of a call and those counted as dropped are together those offered to registered clients; backpressure equals dropped, and publications are counted once each |
| HubCounters.QuietAccounts | internal/realtime/hub.go:107-157 | once no call is in flight, handed over plus dropped is offered, and every publication is counted |
| HubCounters.EveryRunFits | internal/realtime/hub.go:188-200 | in every run no client's buffer holds more than it was made for |
| HubCounters.DroppedIffFull | internal/realtime/hub.go:126-138 | a send drops its message if and only if the buffer is full or the client closed already |
| HubAlone.PublishAlone | internal/realtime/hub.go:107-140 | a publication that runs alone serves each registered client of its scope as the object's method does: the message, or closed, taken off the map and counted once; nothing else moves |
| HubOrder.PastIsHandedNoMore | internal/realtime/hub.go:107-140 | a publication whose call has been at a client, or never will be, is handed to it no more: what the client is handed later is appended without it |
| HubOrder.ReadingGivesAll | internal/realtime/http.go:126-140 | a client that reads as often as its buffer holds messages has received all it was handed, in that order |
| HubOrder.EarlierIsHandedFirst | internal/realtime/hub.go:107-140 | when one publication had returned before another began, a client that is handed both is handed them in that order, in every interleaving |
| HubOrder.OrderMayTurnIff | internal/realtime/hub.go:107-140 | in any state of any run, a publication that is sending to an open client with room for two may yet be handed over before an earlier one if and only if that one has the client ahead of it as well |
| HubOrder.OverlapTurnsOrder | internal/realtime/hub.go:107-140 | its instance for the first two publications to a new client |
| ReconcileStore.Reconciler.MappingByExternalID | internal/domain/integrations/service.go:1061-1079 | an unseen external id becomes an unmapped row; an empty one is refused |
| ReconcileStore.Reconciler.RecordDiscrepancy | internal/domain/integrations/service.go:1199-1230 | one row per discrepancy; an unknown vendor status is refused by the table |
| ReconcileStore.Reconciler.ApplyTableState | internal/domain/integrations/service.go:611-658 | one occupy or clear command with a fresh id; the table already being there is not an error |
| ReconcileStore.Reconciler.ReconcileTableState | internal/domain/integrations/service.go:536-579 | unmapped and conflicting entries go to review, equal ones are ignored, the rest is recorded and corrected |
| ReconcileStore.Reconciler.ReconcileStates | internal/domain/integrations/service.go:510-530 | the states in order, counting, up to the first error |
| ReconcileStore.Reconciler.ReconcileConnection | internal/domain/integrations/service.go:488-534 | one run row, finished as completed or failed with the counters, also when the fetch fails, and the connection degraded exactly on failure |
| ReconcileStore.Reconciler.FetchExternalStatus | internal/domain/integrations/service.go:1264-1287 | the configured tables in order, trimmed, without those that have no id or an unknown status; a configuration that does not decode is an error |
| ReconcileStore.Reconciler.ApplyWebhookFact | internal/domain/integrations/service.go:581-609 | a fact about an unmapped table is an error, an equal one nothing, any other one command |
| Reconcile.CorrectionSucceeds | internal/domain/integrations/service.go:611-658 | from any reachable floor a correcting command on an active table, with fresh ids and a transaction that begins after every session of the floor, succeeds, moves that table alone, and keeps the command machine's invariant |
| Reconcile.EntryEffect | internal/domain/integrations/service.go:536-579 | one entry moves its mapped table to its status unless assists are active, and nothing else; it reports a correction exactly when it made one |
| Reconcile.RunRecords | internal/domain/integrations/service.go:510-530 | the counters of a run are the discrepancy rows it wrote, split into corrected and for review |
| Reconcile.ReconcileCompletes | internal/domain/integrations/service.go:488-579 | any list of known states completes; each table ends at its last entry's status, tables with assists or without entries keep their rows, and discrepancies are corrections plus reviews |
| Reconcile.BadEntryFails | internal/domain/integrations/service.go:536-579 | an entry without an id or with an unknown status is refused by a column check on any ready floor |
| Reconcile.ReconcileCompletesIff | internal/domain/integrations/service.go:488-534 | on a ready floor, with fresh ids and transactions that begin after every session of the floor, a run completes if and only if every entry has an id and a known status |
| Reconcile.ReferenceRunCompletes | internal/domain/integrations/service.go:1264-1287 | so with the reference adapter every configured list completes, and the floor ends as its entries say |
| Reconcile.SecondPassCorrectsNothing | internal/domain/integrations/service.go:488-579 | a second pass over the same states corrects nothing and leaves the floor alone when entries agree per table |
| Reconcile.WebhookLands | internal/domain/integrations/service.go:581-609 | a fact about a mapped active table always lands and touches no other table; it errs exactly when its table is unmapped |
| ReconcileReview.EveryLogTells | internal/domain/integrations/service.go:1095-1111 | in every run the log shows a request made for a table, or ended, exactly when its row says so |
| ReconcileReview.ReviewedIff | internal/domain/integrations/service.go:536-579 | an entry that differs from its table is left for review, with the floor as it was, if and only if a request of the table has been made and neither resolved nor cancelled; otherwise it is corrected; each writes its own row |
| ReconcileReview.UnmappedIsReviewed | internal/domain/integrations/service.go:536-579 | an entry for a table nobody mapped is left for review, and one that agrees with its table writes nothing |
| ReconcileReview.SeenIdsAreRecorded | internal/domain/integrations/service.go:1061-1079 | an entry or a webhook with an id puts a new id on record as unmapped and leaves the others as they were |
| ReconcileReview.NamelessIsRefused | internal/domain/integrations/service.go:1061-1079 | without an id both are refused and nothing changes |
| ReconcileReview.DeadTableFails | internal/domain/integrations/service.go:536-658 | an entry or a webhook for a table that has left the floor fails with its command, and only the discrepancy row stays |
| ReconcileReview.AlreadyThereIsNoError | internal/domain/integrations/service.go:611-658 | a correcting command that finds its table already there is no error, however old its version; another version or no live table is one |
| ReconcileReview.CorrectionSession | internal/domain/integrations/service.go:611-658 | a correction opens a session of the given party, or ends the table's open one, at the transaction's start |
| ReconcileReview.WebhookEffects | internal/domain/integrations/service.go:581-609 | a webhook that seats a party opens a session of its size; unmapped tables and unknown statuses are errors that change no row; none writes a discrepancy |
| ReconcileReview.RunFollowsTheLog | internal/domain/integrations/service.go:488-579 | after a whole run a table with such a request keeps its row, and any other with an entry is at the status of its last one |
| ReconcileReview.FailsAtBadEntry | internal/domain/integrations/service.go:510-530 | a run that comes to a bad entry fails there, having done and reporting what the entries before it came to |
| ReconcileReview.FetchedIff | internal/domain/integrations/service.go:1264-1287 | the reference adapter hands on exactly the configured tables with an id and one of the two status texts, with that status |
| Analytics.OverlapIsClip | internal/domain/analytics/formulas.go:35-49 | the Go overlap and the term of the SQL aggregate agree on every session and window, and the flag says whether the session is possible |
| Analytics.OccupancyAtMostBasis | internal/domain/analytics/projection.go:280-287 | summed clipped occupancy of disjoint sessions is at most tables times window length |
| Analytics.UtilisationIsARate | internal/domain/analytics/formulas.go:25-33 | over any window and up to any instant the utilisation rate of disjoint sessions is in [0, 1] |
| AnalyticsRates.OccupancyCountsPairs | internal/domain/analytics/projection.go:280-287 | the occupancy of disjoint sessions in a window is the number of pairs of a table and an instant at which the table is in use |
| AnalyticsRates.UtilisationIsTheShareInUse | internal/domain/analytics/formulas.go:25-33 | the utilisation rate is the share of those pairs: 1 if and only if every table is in use at every instant, 0 if and only if none ever is |
| AnalyticsRates.MoreSessionsMoreUse | internal/domain/analytics/formulas.go:25-33 | another session that overlaps none of the others never lowers it |
| AnalyticsRates.NoBasisNoRate | internal/domain/analytics/formulas.go:25-33 | without tables, or over an empty window, the rates are 0 |
| AnalyticsRates.MetricCountsRows | internal/domain/analytics/projection.go:289-352 | completed sessions, requests and anomalies are numbers of rows of the tables in the window, and turnover times tables is the number of completed sessions |
| Analytics.EveryRunUtilisation | internal/domain/analytics/projection.go:249-352 | after any run in which the stamps of the tables follow each other the utilisation rate of every metric over those tables is in [0, 1] |
| Analytics.EveryRunWithoutAnomalies | internal/domain/analytics/projection.go:309-315 | after any run, whatever the clocks, no session counts as an anomaly |
| Analytics.EveryInstantInOneBucket | internal/domain/analytics/projection.go:199-208 | every instant of a tiled day is in exactly one bucket |
| Analytics.DayIsTiled | internal/domain/analytics/projection.go:199-208 | the hour buckets cover a day of any length without gap or overlap, the last one cut at its end |
| Analytics.FiguresAdd | internal/domain/analytics/projection.go:273-315 | occupancy (open sessions running to the window's end), completed sessions and assist requests add up over adjacent windows |
| Analytics.TablesAddUp | internal/domain/analytics/projection.go:354-365 | and over distinct tables |
| Analytics.HoursAddUpToTheDay | internal/domain/analytics/projection.go:199-208 | hourly table rows summed over hours and tables are the day's location figures |
| Rebuild.DailyOnRows | internal/domain/analytics/projection.go:184-247 | a date has one daily row per location, floor, zone, table and running period, over its window and its tables |
| Rebuild.HourlyOnRows | internal/domain/analytics/projection.go:199-208 | a date has one hourly row per table and bucket |
| Rebuild.RebuildReplaces | internal/domain/analytics/projection.go:79-165 | a rebuild replaces exactly the rows of the dates in [from, until) by what the operational rows say, and no others |
| Rebuild.RebuildIsIdempotent | internal/domain/analytics/projection.go:79-143 | a second rebuild on unchanged data gives the same rows |
| Rebuild.AdjacentRangesCompose | internal/domain/analytics/projection.go:79-143 | two adjacent ranges one after the other equal one run over their union |
| Rebuild.AdjacentRangesCommute | internal/domain/analytics/projection.go:79-143 | and so in the other order |
| Rebuild.FixedCalendarIsValid | internal/domain/analytics/service.go:632-646 | the midnights of a fixed offset and the windows of periods entered as clock strings make a calendar that all these theorems apply to |
| Rebuild.EventInsideItsWindow | internal/domain/analytics/service.go:632-636 | the local day window of an instant contains the instant |
| Rebuild.HandledDate | internal/domain/analytics/projection.go:63-64 | the projector rebuilds one date: the event's own up to UTC and west of it, the day before east of it |
| Rebuild.HandleRebuildsEventDateIff | internal/domain/analytics/service.go:632-646 | with a fixed offset the event's local date is rebuilt if and only if the zone is not ahead of UTC |
| Rebuild.HandleMissesEventDate | internal/domain/analytics/projection.go:63-67 | ahead of UTC all daily and hourly rows of the event's own date stay as they were |
| Rebuild.HandleMissesExample | internal/domain/analytics/projection.go:63-64 | an instant and an offset for which the day before is rebuilt |
| ProjectionTotals.GroupsAddUp | internal/domain/analytics/projection.go:354-365 | figures of groups without a table in common add up to those of their tables |
| ProjectionTotals.RebuildHoldsDate | internal/domain/analytics/projection.go:119-130 | after a rebuild over a date every row of the date is the one its group, table and hour ask for |
| ProjectionTotals.RebuiltRowsAgree | internal/domain/analytics/projection.go:167-247 | the stored hourly, table, zone and floor rows of a rebuilt date each sum to its location row |
| ProjectionRows.RebuiltDailyRow | internal/domain/analytics/projection.go:167-247 | after a rebuild over a date each location, floor, zone, table and period has exactly its row, over the local day or the period's own window, and over its own tables |
| ProjectionRows.RebuiltHourlyRow | internal/domain/analytics/projection.go:199-208 | and each active table exactly one row per full hour, over that hour |
| RebuildStore.Tables.ClearProjectionDay | internal/domain/analytics/projection.go:145-165 | exactly the hourly rows inside the date and the daily rows of the date go |
| RebuildStore.Tables.ProjectGroups | internal/domain/analytics/projection.go:367-454 | one aggregate and one insert per group; no insert meets its own key |
| RebuildStore.Tables.ProjectHour | internal/domain/analytics/projection.go:456-510 | one insert per active table at the hour's start; none fails |
| RebuildStore.Tables.ProjectHours | internal/domain/analytics/projection.go:199-208 | the hour loop inserts exactly the rows of the date's buckets |
| RebuildStore.Tables.ProjectDay | internal/domain/analytics/projection.go:167-247 | location, floors, zones, tables, hours and periods of a cleared date, without a failing insert |
| RebuildStore.Tables.RebuildRange | internal/domain/analytics/projection.go:79-143 | succeeds, returns the number of dates, and leaves what the clear-and-project function gives |
| WebSocket.ReadsBack | internal/realtime/websocket.go:136-208 | a frame of the writer, masked as section 5.3 of RFC 6455 says, is read back with its opcode and payload, taking exactly its bytes |
| WebSocket.FramesReadBack | internal/realtime/websocket.go:136-208 | so is any list of frames, over all three length forms and with any keys, whatever follows |
| WebSocket.CutShort | internal/realtime/websocket.go:136-180 | cut anywhere, the bytes of a frame are an end of stream |
| WebSocket.TakesWhatItNeeds | internal/realtime/websocket.go:136-180 | a frame or an error other than the end of the stream depends on exactly the bytes taken, whatever follows; for a frame, or one that is too large, one byte less is the end of the stream |
| WebSocket.AcceptedIsSentIff | internal/realtime/websocket.go:136-180 | what the reader accepts is what the writer and a mask give if and only if the reserved bits are clear and the length form is the shortest (section 5.2 of RFC 6455) |
| WebSocket.ReservedBitsIgnored | internal/realtime/websocket.go:141-145 | a frame with a reserved bit that is accepted |
| WebSocket.LongFormAccepted | internal/realtime/websocket.go:150-164 | a frame whose length is not in the shortest form that is accepted |
| WebSocket.UnmaskIsExclusiveOr | internal/realtime/websocket.go:176-178 | a bit of a masked byte is set if and only if it is set in exactly one of the byte and the key's byte at its place modulo four |
| WebSocket.ZeroKeyMasksNothing | internal/realtime/websocket.go:176-178 | a key of zeros leaves the payload as it is |
| WebSocket.MaskedHello | internal/realtime/websocket.go:136-180 | the masked text message of section 5.7 of RFC 6455 is read as Hello |
| WebSocket.BigEndian | internal/realtime/websocket.go:150-164 | lengths have their most significant byte first |
| WebSocketConnection.Connection.ReadFull | internal/realtime/websocket.go:137-140 | all the bytes asked for, or the rest of the stream and an error |
| WebSocketConnection.Connection.UnmaskInPlace | internal/realtime/websocket.go:176-178 | each byte is exclusive-ored with the key's byte at its place modulo four |
| WebSocketConnection.Connection.ReadLength | internal/realtime/websocket.go:150-164 | the length of the second byte or of the two or eight bytes after it |
| WebSocketConnection.Connection.ReadFrame | internal/realtime/websocket.go:136-180 | the reader's result and exactly the bytes it takes, error by error |
| WebSocketConnection.Connection.WriteFrame | internal/realtime/websocket.go:182-208 | the frame's bytes are appended to what was written |
| WebSocketConnection.Connection.ReadLoop | internal/realtime/websocket.go:80-106 | writes and ends as the loop's function on the bytes still to come says |
| WebSocketConnection.EveryPingAnswered | internal/realtime/websocket.go:80-106 | texts, pings and pongs and then a close are answered by one pong per ping, in order and with its payload, and a close |
| RateLimiter.GuestRateLimiter.Allow | internal/httpapi/guest.go:471-485 | the answer is that of the run of all calls so far, the map stays what that run makes of every key, and other keys keep their buckets |
| RateLimiter.WindowBound | internal/httpapi/guest.go:471-485 | on a non-decreasing clock at most 2 x limit - 1 calls of a key are admitted in any closed interval of length window |
| RateLimiter.AdmittedAreAnswers | internal/httpapi/guest.go:471-485 | what the bounds count are the calls that were answered with yes |
| RateLimiter.WindowBoundIsTight | internal/httpapi/guest.go:471-485 | for every limit and window of at least 1, a run that reaches the bound |
| RateLimiter.BucketBound | internal/httpapi/guest.go:471-485 | from the call that opens a bucket to the next one that does, at most limit calls are admitted |
| RateLimiter.OtherKeysDoNotMatter | internal/httpapi/guest.go:471-485 | a key's bucket and admissions are those it would get if it were alone |
| MembershipStore.Service.MembershipByProfile | internal/domain/identity/memberships.go:590-610 | finds the row of a profile in a scope exactly when there is one |
| MembershipStore.Service.CreateOrReactivate | internal/domain/identity/memberships.go:531-588 | an enabled row is a conflict, a disabled one is enabled with the role, a missing one is inserted |
| MembershipStore.Service.RequireAnotherOwner | internal/domain/identity/memberships.go:694-709 | counts the enabled owners and asks for two |
| MembershipStore.Service.CreateMembership | internal/domain/identity/memberships.go:135-198 | role checked against scope, then the location looked up, then created or reactivated |
| MembershipStore.Service.UpdateMembershipRole | internal/domain/identity/memberships.go:200-241 | an enabled row takes the role unless that demotes the only owner |
| MembershipStore.Service.DisableMembership | internal/domain/identity/memberships.go:243-282 | an enabled row is disabled unless it is the only owner's |
| MembershipStore.Service.PlatformInviteOwner | internal/domain/identity/memberships.go:284-321 | created or reactivated as an owner |
| MembershipStore.Service.PlatformDisableOwner | internal/domain/identity/memberships.go:323-346 | only an enabled owner's row, and only when there is another |
| MembershipStore.Service.PlatformReactivateOwner | internal/domain/identity/memberships.go:348-368 | an owner's row is enabled |
| MembershipStore.Service.PlatformReassignOwnership | internal/domain/identity/memberships.go:370-424 | the target is made or looked up and the old owner disabled, or everything is rolled back |
| Memberships.StepKeepsOwner | internal/domain/identity/memberships.go:200-424 | every operation keeps an owner, but for a reassignment to somebody with an enabled read-only membership |
| Memberships.StepKeepsProfiles | internal/domain/identity/memberships.go:531-588 | every operation keeps at most one row per profile and scope |
| Memberships.HolderIsRevived | internal/domain/identity/memberships.go:531-588 | whoever has a row in the scope is refused if it is enabled and gets it back with the role if it is disabled |
| Memberships.NewcomerIsInserted | internal/domain/identity/memberships.go:531-588 | anybody else gets a new enabled row, unless another row of the scope has their reference or the row id is taken |
| Memberships.EveryRunKeepsRefs | internal/domain/identity/memberships.go:531-588 | in every run a reference is in a scope at most once |
| Memberships.RowsAreOfKnownLocations | internal/domain/identity/memberships.go:135-198 | a row of a location appears only through a creation that found the location; an unknown one is not found |
| Memberships.UpdateRefusedIff | internal/domain/identity/memberships.go:200-241 | the guard refuses a role change of an enabled row if and only if it would take the last owner |
| Memberships.DisableRefusedIff | internal/domain/identity/memberships.go:243-346 | and a disabling if and only if it would |
| Memberships.MissingIsNotFound | internal/domain/identity/memberships.go:200-346 | a row that is missing, of the other table or disabled is not found |
| Memberships.RoleHasOneScope | internal/domain/identity/memberships.go:767-776 | every role belongs to exactly one of the two scopes |
| Memberships.OperationOwners | internal/domain/identity/memberships.go:135-424 | every operation fails and changes nothing, or makes and unmakes exactly the owners it is for |
| Memberships.EveryRunRolesFit | internal/domain/identity/memberships.go:767-776 | in every run organisation rows hold organisation roles and location rows location roles |
| Memberships.OnlyRevivalsTouchDisabled | internal/domain/identity/memberships.go:200-424 | a disabled row changes only by being enabled, through creation, invitation, reactivation or reassignment |
| Memberships.EveryRunKeepsOwner | internal/domain/identity/memberships.go:135-424 | in every serial run an organisation with an enabled owner keeps at least one, given that no reassignment targets such a person |
| Memberships.ReassignOwners | internal/domain/identity/memberships.go:370-424 | a successful reassignment takes the old owner out and puts the target in unless the target holds a read-only membership |
| Memberships.ReassignLosesOwnerIff | internal/domain/identity/memberships.go:401-413 | it leaves no owner if and only if the old owner was the only one and the target holds an enabled read-only membership |
| Memberships.ReassignLosesOwnerExample | internal/domain/identity/memberships.go:401-413 | two rows and a reassignment that leave no owner |
| OwnerRace.AloneIsTheOperation | internal/domain/identity/memberships.go:200-282 | count and write with nothing between them are the operation itself, disabling or demoting |
| OwnerRace.PendingOwnersGo | internal/domain/identity/memberships.go:243-282 | when transactions that counted have all written, in any order, exactly the owners they had locked are gone |
| OwnerRace.RaceLosesOwnersIff | internal/domain/identity/memberships.go:694-709 | so no owner is left if and only if every owner's row was locked by a transaction that had already counted |
| OwnerRace.OneAtATimeKeepsOwner | internal/domain/identity/memberships.go:694-709 | when no transaction counts while another is between its count and its write, an owner stays in every run |
| OwnerRace.RaceExample | internal/domain/identity/memberships.go:200-282 | two owners, two interleaved transactions that each disable or demote, and no owner left |
| ServicePeriods.PartsAddUp | internal/domain/analytics/service_period.go:76-85 | hours, minutes, seconds and the rest add up to the time of day, each in its range |
| ServicePeriods.WindowBounds | internal/domain/analytics/service_period.go:21-48 | the window starts at the date's start time and ends at its end time, on the next date if that is not later |
| ServicePeriods.WindowLength | internal/domain/analytics/service_period.go:41-46 | a window is at most 24 hours long, and empty if and only if it runs from 24:00 to 00:00 |
| ServicePeriods.WindowsDisjoint | internal/domain/analytics/service_period.go:21-48 | windows of one period on different dates never overlap |
| ServicePeriods.WindowsRepeatWeekly | internal/domain/analytics/service_period.go:34-47 | a period runs exactly on the weekdays it names, and a week later at the same local times |
| ServicePeriods.WeekdayIsTheCalendars | internal/domain/analytics/service_period.go:34-36 | weekdays are those of the calendar: 0 is Sunday, each follows the one before, and 1 January 1970 was a Thursday |
| ServicePeriods.ParseFormatted | internal/domain/analytics/service_period.go:50-74 | parsing a formatted time drops the fraction of a second; 24:00 does not parse |
| ServicePeriods.ParseInvertsFormatIff | internal/domain/analytics/service_period.go:50-74 | parsing inverts formatting if and only if the time is a whole second before 24:00 |
| ServicePeriods.FormatAfterParse | internal/domain/analytics/service_period.go:50-74 | whatever parses is a whole second before 24:00 and survives formatting and parsing again |
| ServicePeriods.ParsedWindowsOpen | internal/domain/analytics/service_period.go:21-63 | windows of periods entered as clock strings are never empty and at most 24 hours long |

## Left out

- Tenants: one organisation and one location are modelled; row-level security, permissions and session settings are not, and the actor is taken to be authorised.
- HTTP, JSON, base64, CORS, DTO conversion, tracing and metrics registration: plumbing. Cursors and envelopes are taken to encode injectively.
- Tokens, hashes and signatures: equality of hashes stands for equality of what was hashed; a guest capability is given as the table it resolves to, if any.
- Versions and counters are unbounded integers; the int32 columns and int64 counters would wrap after two billion changes of one row.
- A command has two clock readings: the transaction's start, which stamps rows, and one later reading of the process, which the cooldown compares with and which stamps the event; the source reads the latter twice.
- The unique index on open sessions is left out because the proofs show that no command could violate it.
- Idempotency rows do not expire, and their column checks on status and hash length are taken to hold.
- Trimming of action keys, actor references and labels: inputs are taken as trimmed.
- Times of commands are whole seconds; outbox rows are in milliseconds and configured durations in nanoseconds; the calendar and service periods are in microseconds.
- SyncAssists.AssistsThenPages: is about the status of each active request; kind, table and time of a request never change.
- Analytics.EveryRunUtilisation: asks that a table's occupying transactions begin after its clearing ones, which the code's row lock does not give.
- Sync.SnapshotThenPages: asks that event order is commit order, because event time is taken before the commit; Sync.DeliveryInAnyOrder does not need it.
- The two worker binaries share one consumer map in EventDelivery, since a worker that lacks a destination never claims its records.
- Outbox batches are claimed by one statement; fairness of `SKIP LOCKED` and polling intervals are not modelled.
- OutboxRetry.BackoffIsCappedDoubling: takes the float product as exact, which holds for bases below 2^53 nanoseconds, and the conversion of a larger float as the amd64 one, which gives the smallest int64.
- That `errgroup` cancels the rest of a batch when one record fails is not a step of its own; every update it makes fail is one that does not commit in OutboxProtocol.
- OutboxStore.Store.HandleConsumer: a statement or commit that fails is not part of this method; OutboxProtocol has every such outcome as a step.
- OutboxStore.Store.ProcessRecord: as HandleConsumer, it is one pass whose statements commit; OutboxPass.PassAlone ties it to the steps there.
- OutboxDelivery.AtMostOnceBesidesLostMarks: asks that rows are reclaimed only from stopped holders, which the lease does not enforce.
- RealtimeHub.Hub.Publish: is one call alone; HubProtocol has the interleavings and HubAlone.PublishAlone the tie. Actor, device and message contents are left out of clients.
- WebSocketConnection.Connection.ReadLoop: write errors, deadlines and the test of the context after each frame are left out; the loop runs until its input ends it.
- `WriteLoop` of the connection is left out.
- Reconcile.ReconcileCompletes: no other command runs during the reconciliation, drawn ids are new, and its transactions begin after every session of the floor; the webhook inbox is left out.
- Labels, last-seen times and ids of mappings, runs and discrepancies are left out.
- Averages and percentiles of a metric are left out, as is `Percentile`, which no code but its test calls; sums of seconds are exact integers and rates are reals instead of floats.
- The five daily projection tables are one map keyed by what the row is about; floors and zones are inserted in the order of their first table, not of their ids, and checkpoints and rebuild runs are left out.
- Rebuild.RebuildReplaces: a day is any interval between ascending midnights, so daylight saving is covered as far as each date has a midnight; how a zone finds its midnights is not modelled.
- Rebuild.HandledDate: is for a fixed offset under a day.
- Memberships.EveryRunKeepsOwner: is for serial runs; OwnerRace has the interleaved ones, for the operations that disable or demote an owner.
- Audit rows, display names and e-mail parsing of memberships are left out; a profile is given as the one its address resolves to.
- ServicePeriods.WindowsDisjoint: is for a fixed offset; a change of offset between two dates is not modelled.
- Configuration, layout and device management are single-row updates and are left out.
