# Verification of the FastF1 dashboard's ingestion and live-timing core

This project models two parts of the dashboard's backend and proves what they are relied on for.

**The backfill control plane.** Jobs, job-sessions, session ingestions, the shared upstream gate and the ledger of
granted requests are changed by a fixed set of database transactions: plan, claim, heartbeat, fail, recover, complete,
aggregate and reserve. `ControlPlane` gives each transaction as a step on the tables and their interleaving as a
labelled transition system, so a run is any interleaving of any number of workers, crashed workers and API processes.
`BackfillOrchestration` has the transactions as methods that update the tables in place, each proved to be one step, and
`ControlPlaneEffects` says column by column what each step writes.
The invariant, fencing by two counters of which one is refunded, the rolling request budget, back-pressure, the progress
view and the settling of corrections are proved over all runs. `ArchiveWorker` joins the control tables to the sporting
ones and runs a worker's turn with anybody else in between; every history of it is such a run. Around it stand the
tables the control plane fills: normalising a session and replacing its archive snapshot statement by statement, the
season calendar that marks and filters instead of replacing, lap telemetry with its resets, and keyset pages.

**The live-timing state path.** Untrusted frames are normalised, merged deeply into per-topic state, logged only when
they change something, and rebuilt from that log. `MergeDelta`, `LogOrder` and `KeySkeletons` hold the laws of the
recursive merge and of the log's key order, `PatchMeaning` what a reader then finds, `LiveFrames` the normalisation and
its round trip, `CurrentView`, `UnseededLog` and `LiveCollection` the view, the bounded log, the subscriber queues and
the collector that conserves every frame. `PitStops` times the pit lane from the collector's frames.

Instants and durations are whole microseconds, jitter fractions are reals. Each database transaction is one atomic step
with one instant, except where a method takes several. Seven promises turned out not to hold as they stand; for each
there is an input that breaks it and the exact condition under which it holds:

- the request budget is safe in all runs if and only if the configured window is at most the 24-hour retention of the
  ledger (`RequestBudget.BudgetHoldsExactlyWithinRetention`); the settings check only that it is positive;
- after a refusal on count a reservation strictly after the gate's deadline is granted, unless a session started and
  another reservation came at exactly that deadline (`BackPressure.GrantedAfterDeadlineExactlyWhen`);
- a lap's telemetry ticket stays dead once lost, unless the lap is requested anew for the same snapshot
  (`TelemetryRow.RevivedExactlyByReset`, and `TelemetryStore.TelemetryTables.LostTicketHoldsNoClaim` for
  the store), because that sets the attempt count back;
- a log applies a delta as the feed did, for all values and states, if and only if the keys of one object that denote
  the same list index arrive in key order (`KeySkeletons.LogsAlikeExactlyWhen`), because the log sorts keys;
- a log that was not read into the view rebuilds it, for the file of any one session and every feed that names it, if
  and only if its old lines leave nothing that such a feed does not overwrite (`UnseededLog.UnseededAgreesExactlyWhen`);
- persistence's own contract check admits snapshots that repeat a racing number or a driver; a replacement commits if
  and only if, besides the contract, both are distinct (`ArchivePersistence.SportingTables.ReplaceSession`), which every
  normalised snapshot is (`FastF1Normalization.NormalizedIsPersistable`);
- a pit stop is meant not to outlive the session status it began in; the tracker compares the two ends of a visit only,
  so that holds for whatever the cars do if and only if the session's statuses never come back to one that was left and
  none is lost after a change (`PitStops.StopsAreRacingExactlyWhen`).

`dafny verify dfyconfig.toml` checks the whole project.

## Model

| member | source | states |
|---|---|---|
| RuntimePolicy.BackoffGrowsToCap | backend/app/ingestion/runtime_policy.py:408-450 | the nominal back-off never shrinks with the attempt, starts at the base and never exceeds the cap |
| RuntimePolicy.RetryDelayBounds | backend/app/ingestion/runtime_policy.py:408-450 | a retry within the attempt budget always gets a schedule, whose jittered delay lies between the configured share of the nominal delay and all of it |
| RuntimePolicy.BackoffMultiplies | backend/app/ingestion/runtime_policy.py:408-450 | the nominal delay starts at the base and is multiplied from one failed attempt to the next until it reaches the cap |
| RuntimePolicy.JitterSpansTheDelay | backend/app/ingestion/runtime_policy.py:408-450 | without jitter the delay is the configured share of the nominal one, with all of it the nominal delay itself |
| RuntimePolicy.JitterLengthens | backend/app/ingestion/runtime_policy.py:408-450 | more jitter never shortens the delay |
| RuntimePolicy.ScheduleRefusedExactlyWhen | backend/app/ingestion/runtime_policy.py:408-450 | a schedule is refused exactly for an invalid attempt, an attempt at the limit, or a jitter outside zero to one |
| FreshnessPolicy.EligibleExactlyWhenDue | backend/app/ingestion/freshness_policy.py:114-170 | an ingestion is eligible exactly when the grace has passed with no completion, or a checkpoint fell between the last completion and now |
| FreshnessPolicy.EligibleAtIsTheFirstDueInstant | backend/app/ingestion/freshness_policy.py:114-170 | an ineligible session is due from the named instant on and at no instant before it; if none is named, never |
| FreshnessPolicy.CompletionUsesOneUp | backend/app/ingestion/freshness_policy.py:114-170 | completing an eligible session strictly shrinks what it can still need: the initial archive, or the set of unsatisfied checkpoints |
| FreshnessPolicy.VerdictSays | backend/app/ingestion/freshness_policy.py:114-170 | every verdict names its reason and the instant that belongs to it: the end of the grace, the latest due checkpoint, the earliest open one, or none |
| FreshnessPolicy.CoverageMeaning | backend/app/ingestion/freshness_policy.py:48-92 | coverage must be refreshed exactly when it is missing or its time is up, and a refresh is good for the time of its kind of season |
| FreshnessPolicy.RefreshLastsItsTime | backend/app/ingestion/freshness_policy.py:48-92 | coverage that a refresh stores is fresh before the instant stored with it and stale from then on |
| ControlPlaneInvariant.Reachable | backend/app/ingestion/backfill_orchestration.py:123-565 | the control-plane invariant holds in every state of every run of plan, claim, heartbeat, fail, recover, complete, aggregate, reserve and calendar refresh |
| ControlPlaneInvariant.NextKeeps | backend/app/ingestion/backfill_orchestration.py:123-565 | each single transaction keeps that invariant |
| ControlPlaneInvariant.AtMostOneActiveRow | backend/alembic/versions/20260727_0001_backfill_control_plane.py:275-281 | no session ever has two pending or running job-sessions, so the partial unique index is never violated |
| ControlPlaneInvariant.RunningExactlyTogether | backend/app/ingestion/backfill_orchestration.py:241-250 | a session ingestion is running exactly when a job-session of that session is, under the same heartbeat and in a running job |
| ControlPlaneInvariant.ClaimNeverConflicts | backend/app/ingestion/backfill_orchestration.py:241-250 | while work flows only through planner and worker, the claim branches for a foreign source and for an already running session are unreachable |
| ControlPlaneInvariant.StaleRowIsRecoverable | backend/app/ingestion/backfill_orchestration.py:355-377 | every expired lease that recovery selects also passes its second look under the locks |
| ControlPlaneInvariant.EligibleSessionsMeaning | backend/app/ingestion/season_backfill.py:328-352 | the planner collects each calendar session exactly once when it is due, not foreign, and not busy unless a job is active, and its freshness check never raises |
| ControlPlaneInvariant.QueueRowsMeaning | backend/app/ingestion/season_backfill.py:367-390 | planning adds a row exactly for each eligible session that the job lacks and nobody works on, and changes no other row |
| ControlPlaneEffects.EveryStepHasItsEffect | backend/app/ingestion/backfill_orchestration.py:123-565 | every transaction of a run writes exactly the columns it is meant to, with the values it is meant to, and nothing else |
| ControlPlaneEffects.FailureFails | backend/app/ingestion/backfill_orchestration.py:501-565 | an owned failure ends row and ingestion alike: failed for good, queued for the back-off of its attempt, or paused with its attempt given back |
| ControlPlaneEffects.RecoveryRecovers | backend/app/ingestion/backfill_orchestration.py:347-422 | a recovery queues every chosen lease that has attempts left, fails the others, beats their jobs and leaves every other row and ingestion alone |
| ControlPlaneEffects.AggregationAggregates | backend/app/ingestion/backfill_orchestration.py:568-624 | a job has the status its rows call for, a start, an end and an error exactly when that status has them, and is never written again once it ended |
| ControlPlaneEffects.PlanningPlans | backend/app/ingestion/season_backfill.py:289-431 | planning opens or extends one job by a pending row exactly for each wanted session, and writes nothing when there is nothing to do |
| ControlPlaneEffects.ReservationReserves | backend/app/ingestion/request_budget.py:62-120 | a reservation is refused by the gate or by a full window, with the promise of the oldest counted request, or granted and remembered for 24 hours |
| Fencing.OneOwnerPerSession | backend/app/ingestion/backfill_orchestration.py:634-655 | two claims that both pass the ownership check of one session name the same job, attempt and token |
| Fencing.TokensOnlyGrow | backend/app/ingestion/backfill_orchestration.py:252-298 | no transaction lowers a session token, and a claim raises it strictly |
| Fencing.OwnershipNeverReturns | backend/app/ingestion/backfill_orchestration.py:443-452 | a claim that has lost its session stays retired in every later state |
| Fencing.EndedClaimIsDead | backend/app/ingestion/backfill_orchestration.py:501-531 | a claim that was failed, completed or recovered never passes the ownership check again, in any run |
| Fencing.IssuedTokensIncrease | backend/app/ingestion/backfill_orchestration.py:257-262 | of two claims issued for one session the later one has the strictly larger token |
| Fencing.AtMostOneIssuedClaimOwns | backend/app/ingestion/backfill_orchestration.py:443-452 | in every reachable state at most one claim ever issued for a session owns it |
| Fencing.LostExactlyByRecovery | backend/app/ingestion/backfill_orchestration.py:308-393 | a worker that has not ended its claim has lost it if and only if a recovery picked its row since |
| Fencing.BeatingKeepsTheSession | backend/app/ingestion/backfill_orchestration.py:425-462 | a worker whose latest beat is within the lease whenever recovery looks never loses its session |
| Fencing.RefundRepeatsJobAttempt | backend/app/ingestion/backfill_orchestration.py:515-531 | after a refund the next claim of the row repeats the job attempt number, and only the session token tells them apart |
| Fencing.AttemptsAccountedFor | backend/app/ingestion/backfill_orchestration.py:515-545 | in every run a row's attempt count is its claims minus its refunds |
| Fencing.ClaimsBoundedByAttempts | backend/app/ingestion/backfill_orchestration.py:205-214 | total claims of a row never exceed the attempt limit plus its refunds |
| Fencing.ClaimSucceedsExactlyWhenPossible | backend/app/ingestion/backfill_orchestration.py:194-228 | a claim succeeds exactly when the gate is open and some row is claimable |
| Fencing.NoPendingRowStranded | backend/app/ingestion/backfill_orchestration.py:379-393 | every pending row of an active job becomes claimable as soon as its retry instant has passed |
| BackfillOrchestration.BackfillStore.ClaimNextArchiveJobSession | backend/app/ingestion/backfill_orchestration.py:183-305 | one claim: the head of the queue, spelled out, or nothing when nothing can start; it writes gate, job, row and ingestion column by column, and the claim owns its session |
| BackfillOrchestration.BackfillStore.HeartbeatArchiveJobSession | backend/app/ingestion/backfill_orchestration.py:425-462 | three heartbeats are written for the owner, and nothing for anybody else |
| BackfillOrchestration.BackfillStore.TransitionArchiveJobFailure | backend/app/ingestion/backfill_orchestration.py:465-565 | retryable below the limit: pending within the back-off; at the limit or terminal: failed; budget and rate limit: pending at their instant with the attempt given back; row and ingestion alike |
| BackfillOrchestration.BackfillStore.RecoverStaleArchiveJobSessions | backend/app/ingestion/backfill_orchestration.py:308-422 | the longest unbeaten expired leases, at most a batch: each ends pending within its back-off if and only if it has attempts left, else failed; nothing else changes |
| BackfillOrchestration.BackfillStore.AggregateBackfillJob | backend/app/ingestion/backfill_orchestration.py:123-180 | the counts are those of the rows, the parent row is written column by column from them, and the job ends active exactly when it has active rows |
| BackfillOrchestration.BackfillStore.ApplyAggregation | backend/app/ingestion/backfill_orchestration.py:568-624 | the derived status and the parent row written from it are those of the aggregation step |
| BackfillOrchestration.BackfillStore.CompleteClaim | backend/app/ingestion/archive_persistence.py:677-731 | the control rows a replacement completes, column by column, for the owner only |
| BackfillOrchestration.BackfillStore.CreateOrReuseJob | backend/app/ingestion/season_backfill.py:289-431 | the active job is reused or one is created, and exactly the wanted sessions are queued |
| BackfillOrchestration.BackfillStore.ReserveRequest | backend/app/ingestion/request_budget.py:62-120 | granted or refused exactly as the gate and the number of counted requests say, with the promised instant; gate and ledger are written accordingly |
| BackfillOrchestration.BackfillStore.RefreshCalendar | backend/app/ingestion/season_backfill.py:158-286 | a stored schedule is one calendar step: it adds sessions or moves ends within one season |
| ArchiveWorker.ArchiveDatabase.CommitReplacement | backend/app/ingestion/archive_persistence.py:92-198 | one transaction commits exactly when the claim owns its session and the snapshot can replace it; then rows and control rows change together, else nothing at all |
| ArchiveWorker.RowsChangeOnlyWithCompletion | backend/app/ingestion/archive_persistence.py:119-187 | over any history the sporting rows of a session change only when the owner of its claim completes it |
| ArchiveWorker.ArchiveDatabase.TakeTurns | backend/app/ingestion/backfill_worker.py:115-125 | whatever others do meanwhile is a run of the control plane; a refused heartbeat means that the claim is lost, and lost it stays |
| ArchiveWorker.ArchiveDatabase.EndClaim | backend/app/ingestion/backfill_worker.py:170-206 | the session is completed exactly when loading succeeded, the claim still owns it and the snapshot can replace it; otherwise the failure on record is what loading raised, or a refusal, retryable exactly when the target has changed |
| ArchiveWorker.ArchiveDatabase.ProcessNextArchiveJobSession | backend/app/ingestion/backfill_worker.py:128-218 | one worker turn with anybody else in between: it is lost exactly when the claim no longer owned its session, else completed with its data or left with the status its failure got; no claim is left behind and the parent job is reconciled |
| BackfillOrchestration.BackfillStore.PerformWorkerMaintenance | backend/app/ingestion/backfill_worker.py:221-258 | after maintenance every job is active exactly when it has an active row |
| RequestBudget.GateNeverMovesBack | backend/app/ingestion/request_budget.py:68-115 | no transaction of any of the three writers moves the gate deadline or the clock back |
| RequestBudget.SessionStartsAreSpaced | backend/app/ingestion/backfill_orchestration.py:252-256 | any two session starts of a run are at least the minimum interval apart |
| RequestBudget.CooldownsAreRespected | backend/app/ingestion/backfill_orchestration.py:515-531 | no session start and no granted request of a run precedes the deadline of an earlier pause or refusal |
| RequestBudget.BudgetAlways | backend/app/ingestion/request_budget.py:85-112 | the pruned ledger is always the recent tail of the full history, and grants a ceiling apart are more than a window apart |
| RequestBudget.WindowNeverOverfills | backend/app/ingestion/request_budget.py:62-120 | in every run every closed window holds at most the operational ceiling of granted requests, when the window fits the retention |
| RequestBudget.BudgetHoldsExactlyWithinRetention | backend/app/ingestion/request_budget.py:17-20 | the budget is safe in all runs if and only if the configured window is at most the 24-hour retention |
| RequestBudget.LongWindowOverfills | backend/app/ingestion/request_budget.py:99-105 | for every longer window a run that grants one request too many inside one window |
| BackPressure.WindowReopensAfterPromise | backend/app/ingestion/request_budget.py:217-243 | after a refusal on count the window stays full up to the promised instant and has room at every instant strictly after it |
| BackPressure.RefusedUntilPromise | backend/app/ingestion/request_budget.py:62-98 | every reservation before a promised instant is refused, whatever happens in between |
| BackPressure.GrantedAfterDeadlineExactlyWhen | backend/app/ingestion/request_budget.py:62-120 | with no pause and nothing granted since a refusal on count, a reservation strictly after the gate deadline is granted if and only if no reservation came at exactly the deadline after a session start, or that start has been paced out |
| BackPressure.FirstReservationAfterDeadlineIsGranted | backend/app/ingestion/request_budget.py:62-120 | with no pause since, and other reservations only before the deadline, the first one strictly after it is granted, whatever sessions started |
| BackPressure.StartAtDeadlineExtendsTheWait | backend/app/ingestion/request_budget.py:87-98 | under any settings there is a run in which a session starts at exactly the promised deadline, a reservation at that instant is refused, and so is one strictly after it |
| BackPressure.UsagePredictsReservation | backend/app/ingestion/request_budget.py:123-203 | the usage snapshot reads paused or rate-limited exactly when a reservation at that instant would be refused, and names the instant it would be promised |
| BackPressure.UsageTellsTheState | backend/app/ingestion/request_budget.py:123-203 | each number, instant and status on the usage page is that of the gate and of the requests that still count |
| JobProgress.ReadyMeansClaimable | backend/app/api/backfill_job.py:158-220 | with one active job and no running row, phase READY holds exactly when a claim at that instant succeeds, and it returns the session named next |
| JobProgress.NextActionIsEarliestClaim | backend/app/api/backfill_job.py:189-220 | otherwise a claim is possible exactly from the instant named as next action on |
| JobProgress.IdleJobEndsOnAggregation | backend/app/api/backfill_job.py:194-195 | an idle job is ended by the next aggregation |
| JobProgress.ViewTellsTheState | backend/app/api/backfill_job.py:158-229 | the progress view names the first started running row and the row completed last, and each phase holds exactly when its cause does |
| ArchiveSettles.SessionSettles | backend/app/ingestion/freshness_policy.py:114-170 | over any run a session is ingested at most once, plus once per correction checkpoint for each end the calendar has given it, and never without an end |
| ArchiveSettles.FixedScheduleSettles | backend/app/ingestion/freshness_policy.py:114-170 | a session whose end is never changed once it has one, whenever the calendar adds it, is ingested at most once, plus once per correction checkpoint |
| FastF1Normalization.NormalizeSession | backend/app/ingestion/fastf1_normalization.py:123-283 | a session is normalised exactly when its rows are readable, identified and unambiguous; the snapshot shows every row column by column and satisfies the persistence contract and the unique indexes |
| FastF1Normalization.NormalizeRows | backend/app/ingestion/fastf1_normalization.py:137-273 | the row loop yields one entry per row and one driver per identified row, each column from its cell, or refuses exactly when a row is unusable or collides with an earlier one |
| FastF1Normalization.AcceptedExactlyWhenClear | backend/app/ingestion/fastf1_normalization.py:137-206 | rows are accepted exactly when each is readable, identified and named and no two share a driver, a number or an abbreviation |
| FastF1Normalization.SeenMeansCollision | backend/app/ingestion/fastf1_normalization.py:157-184 | the four seen-sets reject a row exactly when it shares a key, driver, number or abbreviation with an earlier row |
| FastF1Normalization.NormalizeResults | backend/app/ingestion/fastf1_normalization.py:286-335 | a race needs exactly one winner, the only one with an elapsed time; every other result has its time as gap and the laps it lacks on the winner; outside a race there is none of this |
| FastF1Normalization.LapEntry | backend/app/ingestion/fastf1_normalization.py:486-524 | a lap row is matched to the entry its number names, checked against its abbreviation, or else to the entry its abbreviation names |
| FastF1Normalization.LapBelongsOnce | backend/app/ingestion/fastf1_normalization.py:486-524 | with distinct numbers and abbreviations a lap belongs to at most one entry |
| FastF1Normalization.NormalizeLaps | backend/app/ingestion/fastf1_normalization.py:338-483 | the lap loop succeeds exactly when every lap is readable and matched and no entry repeats a lap number |
| FastF1Normalization.NormalizedIsPersistable | backend/app/ingestion/fastf1_normalization.py:338-372 | every normalised snapshot passes the contract check and has distinct numbers and drivers |
| ArchiveSnapshot.ContractAdmitsRepeatedNumber | backend/app/ingestion/archive_persistence.py:201-250 | a concrete snapshot passes the contract check although two entries share a racing number |
| ArchiveSnapshot.ContractAdmitsRepeatedDriver | backend/app/ingestion/archive_persistence.py:201-250 | a concrete snapshot passes the contract check although two entries share a driver |
| ArchivePersistence.SportingTables.ReplaceSession | backend/app/ingestion/archive_persistence.py:92-198 | the sporting half of a replacement goes through exactly when the contract and the target hold, no row is foreign, and numbers and drivers are distinct; then the session holds exactly the snapshot, else nothing has changed and the first obstacle is named |
| ArchivePersistence.StatementsReplace | backend/app/ingestion/archive_persistence.py:124-187 | the statements in order refine one replacement: contents equal to the snapshot, row identities kept by key, other sessions untouched, drivers kept |
| ArchivePersistence.SportingTables.UpsertEntry | backend/alembic/versions/20260728_0002_sporting_data.py:103-135 | one row of the entry upsert is refused exactly when another entry of the session has its number or driver, and otherwise keeps every unique index |
| ArchivePersistence.SportingTables.UpsertEntries | backend/app/ingestion/archive_persistence.py:434-481 | on cleared rows the whole entry upsert succeeds exactly when the snapshot repeats no number and no driver, even when drivers swap numbers |
| ArchivePersistence.SportingTables.ClearEntryUniqueValues | backend/app/ingestion/archive_persistence.py:419-431 | clearing removes driver and number from every entry of the session and changes nothing else |
| ArchivePersistence.SportingTables.UpsertDrivers | backend/app/ingestion/archive_persistence.py:382-416 | drivers are found or created by identifier; no driver is renamed or removed |
| ArchivePersistence.SportingTables.UpsertResults | backend/app/ingestion/archive_persistence.py:484-530 | each result row ends as the snapshot has it and every other row as it was |
| ArchivePersistence.SportingTables.UpsertLaps | backend/app/ingestion/archive_persistence.py:533-616 | the batches of 500 together upsert exactly the snapshot's laps |
| ArchivePersistence.SportingTables.DeleteStaleLaps | backend/app/ingestion/archive_persistence.py:619-643 | exactly the archive laps of the session that the snapshot does not name are deleted |
| ArchivePersistence.SportingTables.DeleteStaleEntries | backend/app/ingestion/archive_persistence.py:663-674 | exactly the unnamed archive entries are deleted, with no RESTRICT reference left to them |
| ArchivePersistence.StaleEntriesAreFree | backend/app/ingestion/archive_persistence.py:159-174 | once stale laps and results are gone, nothing refers to a stale entry |
| ArchiveTables.ClashIsInSnapshot | backend/app/ingestion/archive_persistence.py:434-481 | on cleared rows an upsert can clash only with an entry of the same snapshot, and does whenever they share a number or driver |
| SeasonCalendar.RefreshShowsSchedule | backend/app/ingestion/season_backfill.py:158-286 | a refresh of stale coverage makes marked rows and deferred rows exactly the new schedule, whatever was stored before |
| SeasonCalendar.SeasonStore.StoreSchedule | backend/app/ingestion/season_backfill.py:158-286 | the nested loops store the schedule, or change nothing exactly when a scheduled row belongs to another source |
| SeasonCalendar.SeasonStore.RefreshIfStale | backend/app/ingestion/season_backfill.py:89-120 | after any sequence of planning attempts readers see exactly the last stored schedule; fresh coverage is left alone |
| SeasonCalendar.StoredScheduleIsRefresh | backend/app/ingestion/season_backfill.py:158-286 | storing a schedule is a calendar step of the control plane, whatever the other seasons hold |
| SeasonCalendar.SeasonStore.WriteDeferred | backend/app/ingestion/season_backfill.py:250-278 | deferred rows end as exactly the schedule's deferred events |
| SeasonOverview.GroupRows | backend/app/api/season_overview.py:269-283 | the grouping pass yields each event once, in round order, with its sessions in row order |
| SeasonOverview.LatestCalendar | backend/app/api/season_overview.py:235-283 | the calendar a reader gets lists exactly the last stored schedule, each event and session once |
| TelemetryStore.TelemetryTables.Ensure | backend/app/ingestion/telemetry_ingestion.py:163-248 | a request is reused or available exactly when it is good or under way for the current snapshot; any other is made anew |
| TelemetryStore.TelemetryTables.ClaimNext | backend/app/ingestion/telemetry_ingestion.py:251-345 | a claim takes the first of the waiting requests, spelled out, writes its columns and owns it, or fails it when it has no driver identity |
| TelemetryStore.TelemetryTables.Heartbeat | backend/app/ingestion/telemetry_ingestion.py:348-358 | a heartbeat is written only for the owner |
| TelemetryStore.TelemetryTables.Replace | backend/app/ingestion/telemetry_ingestion.py:361-435 | samples are replaced and the lap completed exactly when the claim owns it and its snapshot is current; a completed lap always stores exactly the samples of its last replace |
| TelemetryStore.TelemetryTables.Fail | backend/app/ingestion/telemetry_ingestion.py:438-485 | an owned retryable failure with attempts left is queued within its back-off, any other fails for good |
| TelemetryStore.TelemetryTables.RecoverStale | backend/app/ingestion/telemetry_ingestion.py:488-531 | the oldest expired leases are released, at most a batch, each with its own jitter, and fewer only when none is left |
| TelemetryStore.TelemetryTables.ArchiveReplaced | backend/alembic/versions/20260728_0006_lap_telemetry.py:103-108 | a replaced session moves its snapshot and takes removed laps' requests and samples with them; completed laps stay backed by their commit, and a removed lap does not return |
| TelemetryStore.TelemetryTables.LostTicketHoldsNoClaim | backend/app/ingestion/telemetry_ingestion.py:614-633 | in the store, whatever its methods did, a ticket that lost its lap holds no claim on it now unless the lap was requested anew for the same snapshot since |
| TelemetryStore.TelemetryTables.ClaimsOfOneLapDiffer | backend/app/ingestion/telemetry_ingestion.py:322-335 | in the store two claims of one lap carry different tickets unless the lap was requested anew for the first one's snapshot in between |
| TelemetryStore.TelemetryTables.Read | backend/app/api/telemetry_data.py:69-149 | each error exactly when its cause holds; otherwise compatible exactly when the request is for the current snapshot, available exactly when it is also completed, and then a page of exactly the committed samples |
| TelemetryRow.EndedTicketStaysDead | backend/app/ingestion/telemetry_ingestion.py:614-633 | a claim whose ownership has ended never owns again, across new requests for other snapshots, while none is made for its own |
| TelemetryRow.TicketsDiffer | backend/app/ingestion/telemetry_ingestion.py:322-335 | two claims of one lap differ in attempt or snapshot unless a new request for the first one's snapshot came between them |
| TelemetryRow.RevivedExactlyByReset | backend/app/ingestion/telemetry_ingestion.py:204-241 | asking for a lap makes an ended ticket valid again in some continuation if and only if it makes a new request for that ticket's snapshot |
| TelemetryRow.ResetRevivesTicket | backend/app/ingestion/telemetry_ingestion.py:228-241 | under any settings a new request after a failure can hand out the ticket that an expired worker still holds |
| TelemetryRow.OnlyStoringCompletes | backend/app/ingestion/telemetry_ingestion.py:423-430 | a request becomes completed only by its owner storing samples for its snapshot |
| TelemetryRow.EveryEventWrites | backend/app/ingestion/telemetry_ingestion.py:163-531 | every event writes exactly its columns of the request, and keeps its attempts within the limit |
| KeysetPages.WalkIsComplete | backend/app/api/session_data.py:225-267 | following the cursor until there is no more yields every matching row once, in order, for every page size |
| KeysetPages.CursorDrops | backend/app/api/session_data.py:228-229 | moving the cursor to a row drops exactly the rows up to it |
| KeysetPages.PagesAreFull | backend/app/api/session_data.py:241-247 | a page is never longer than asked for, and shorter only when it is the last |
| KeysetPages.ReadSessionLaps | backend/app/api/session_data.py:192-268 | one request returns the wanted laps past the cursor in order, none skipped, and says that there are more exactly when a wanted lap did not fit |
| MergeDelta.ReplayBlock | backend/app/live/current_view.py:43-79 | replaying any block of patches right after itself leaves the state as it was |
| MergeDelta.MergeTwice | backend/app/live/current_view.py:43-79 | merging the same delta twice yields the same state, even when two of its keys denote one index |
| MergeDelta.MergeGrowth | backend/app/live/current_view.py:43-70 | a merged state has at most the nodes of the state plus those of the patch |
| MergeDelta.MergeKeepsDepth | backend/app/live/current_view.py:43-70 | merging nests no deeper than the deeper of state and patch |
| MergeDelta.MergeKeepsRedaction | backend/app/live/current_view.py:43-70 | no merge brings back a value that normalisation has redacted |
| MergeDelta.ListsKeepTheirLength | backend/app/live/current_view.py:59-68 | a mapping patch leaves a list a list of the same length, and untouched where it names no index |
| PatchMeaning.ShownExactlyByStrip | backend/app/live/current_view.py:53-54 | the one state that shows a value is that value without its field order, kind by kind |
| PatchMeaning.ShowAlikeExactlyWhen | backend/app/live/current_view.py:53-54 | two values show the same state if and only if the log, which sorts keys, writes them alike |
| PatchMeaning.SentIsRead | backend/app/live/current_view.py:43-70 | a value that a delta sends to a path of keys and indexes is what a reader then finds at that path |
| PatchMeaning.MissedIsKept | backend/app/live/current_view.py:43-70 | what a delta does not reach is read as before |
| PatchMeaning.NumeralDenotes | backend/app/live/current_view.py:73-79 | the decimal numeral of an index denotes that index, up to the digits the interpreter converts |
| PatchMeaning.OtherCharacterSpoils | backend/app/live/current_view.py:73-79 | a key with any other character denotes no index |
| LogOrder.SortedMerge | backend/app/live/frames.py:110-126 | a patch whose colliding index keys already come in key order merges the same after the log has sorted its keys |
| LogOrder.KeyOrderIsHarmlessExactlyWhen | backend/app/live/current_view.py:59-79 | an object's keys merge the same in arrival and in log order, for all values and states, if and only if keys denoting one index arrive in key order |
| LiveJson.BeforeExactlyWhen | backend/app/live/frames.py:119-126 | in the log one key stands before another exactly when it is a proper start of it or has the smaller character where they first differ |
| KeySkeletons.LogsAlikeExactlyWhen | backend/app/live/current_view.py:43-79 | a whole delta merges the same from the log as from the feed, for all states and whatever values any one of its nested objects holds, if and only if every object in it brings the keys of one index in key order |
| LogOrder.CollidingKeysBreakReplay | backend/app/live/current_view.py:73-79 | the concrete delta with keys 1 and 01 that a replayed log applies differently |
| LiveFrames.FillMapping | backend/app/live/frames.py:213-228 | the loop normalises a mapping up to the first key or value it rejects, and rejects for that reason |
| LiveFrames.FramesAreNormal | backend/app/live/frames.py:152-184 | every accepted frame is on a consumed topic, redacted, and at most 24 levels deep |
| LiveFrames.FrameAcceptedExactlyWhen | backend/app/live/frames.py:152-184 | a frame is accepted exactly when its topic is consumed, its envelope is sound and its payload is acceptable |
| LiveFrames.FrameCarriesWhatWasSent | backend/app/live/frames.py:152-249 | an accepted frame carries topic, flag, instants and every part of the payload as sent, except what stands under a sensitive key |
| LiveFrames.FrameRejectedForItsReason | backend/app/live/frames.py:152-249 | a rejected frame names the first thing that is wrong with it, envelope before payload |
| LiveFrames.ContainedExactlyWhen | backend/app/live/frames.py:252-254 | a key is sensitive by a fragment exactly when the fragment stands somewhere in it |
| LiveFrames.AcceptedExactlyWhen | backend/app/live/frames.py:213-249 | a value is accepted exactly when nothing in it, outside what redaction hides, is non-finite, binary, keyed by a non-text or deeper than 24 levels |
| LiveFrames.NormalComesBack | backend/app/live/frames.py:213-249 | normalisation leaves what it has already normalised as it is |
| LiveFrames.LogRoundTrip | backend/app/live/frames.py:110-149 | decoding the line of an accepted frame gives the frame back, with its objects in key order |
| LiveFrames.LoggingIsStable | backend/app/live/frames.py:110-126 | a frame read back from the log is written to the very same line |
| LiveFrames.LiveTiming | backend/app/live/frames.py:31-80 | the consumed topics, none of which is also ignored, and the sensitive key fragments |
| CurrentView.LiveCurrentView.Apply | backend/app/live/current_view.py:103-139 | a full state is shown as it was sent; of a delta, what it sends to a path is read there and what it misses is read as before; a change is reported exactly when the payload differs, and the bookkeeping counted |
| CurrentView.LiveCurrentView.ApplyAll | backend/app/live/current_view.py:141-142 | the frames applied in order, and how many changed something |
| CurrentView.RebuildFromLog | backend/app/live/current_view.py:172-176 | the view rebuilt from a log is the replay of its decodable lines |
| CurrentView.LogAgreesWithView | backend/app/live/current_view.py:103-139 | a log that seeded the view and received every accepted frame rebuilds the view's payloads, although unchanged frames were never logged |
| UnseededLog.UnseededAgreesExactlyWhen | backend/app/live/collector.py:196-203 | for the file of any one session, over every feed that names that session, a log that was not read into the view rebuilds it if and only if its old lines leave nothing, or a session info that holds at most the meeting's name |
| UnseededLog.LeftoverIsCovered | backend/app/live/collector.py:440-453 | such old lines are covered by any accepted frame that names the session |
| UnseededLog.OldTopicComesBack | backend/app/live/collector.py:440-453 | a concrete failure: an old topic that the feed never mentions shows in the rebuilt view |
| CurrentView.ReconnectReplayIsHarmless | backend/app/live/current_view.py:18-19 | a reconnect that replays any run of frames, snapshots and deltas alike, leaves the view as it was |
| CurrentView.ResentFrameChangesNothing | backend/app/live/current_view.py:126-129 | a frame sent again right away reports no change |
| CurrentView.ReachableStateIsClean | backend/app/live/frames.py:213-249 | whatever is sent, every topic stays within the depth of one frame and shows no sensitive value |
| CurrentView.ViewGrowth | backend/app/live/current_view.py:63-68 | no topic holds more nodes than it held and was sent |
| LiveCollection.LiveSessionLog.Append | backend/app/live/session_log.py:90-102 | a frame is written exactly when it fits under the cap, and the file never outgrows the cap |
| LiveCollection.UpdateQueue.Offer | backend/app/live/collector.py:473-490 | the queue keeps exactly the newest updates that fit, in order |
| LiveCollection.LiveCollector.Handle | backend/app/live/collector.py:365-401 | one frame is rejected and counted for its reason, counted as a duplicate, or accepted, shown to the pit-stop tracker, logged and published; every count stays balanced (positions are not tracked) |
| LiveCollection.LiveCollector.Record | backend/app/live/collector.py:403-422 | an accepted frame is written, buffered or counted as dropped, in order of acceptance |
| LiveCollection.LiveCollector.OpenLog | backend/app/live/collector.py:440-453 | opening the log flushes the buffer in order, counting what the cap refuses |
| LiveCollection.LiveCollector.ResolveIdentity | backend/app/live/collector.py:424-438 | the session is named once, from the first SessionInfo that carries both names |
| SessionIdentity.IdentifiedExactlyWhen | backend/app/live/collector.py:69-109 | a payload identifies its session exactly when it names both the meeting and the session, and then by those names and its day |
| LiveCollection.LiveCollector.Publish | backend/app/live/collector.py:455-467 | every subscriber is offered the merged topic state |
| LiveCollection.LiveCollector.LogRebuildsView | backend/app/live/collector.py:365-453 | with the log open, nothing dropped, and a log that seeded the view or whose old lines leave nothing, the file rebuilds the view's payloads |
| LiveCollection.LiveCollector.StopsAreThoseReported | backend/app/live/collector.py:386-399 | the stops of a live session are those of the pit reports of its accepted timing frames, among all states the session was in after any accepted frame, and none but racing stops while the status only moves on |
| LiveCollection.LiveCollector.TrackPits | backend/app/live/collector.py:386-399 | the tracker sees exactly the timing frames, each with the session state the view then has |
| LiveCollection.FrameTellsTheTracker | backend/app/live/collector.py:386-399 | a frame tells the tracker the state of the session and, if it is a timing frame, the cars of its lines, by the feed's clock where it gives one |
| LiveCollection.LiveCollector.EveryFrameIsAccountedFor | backend/app/live/collector.py:365-453 | handled frames are the written, dropped, waiting, duplicate and rejected ones; at most 512 wait; written and waiting ones are in order of acceptance |
| PitStops.PitStopTracker.Observe | backend/app/live/pit_stops.py:69-132 | after any sequence of payloads the open set is the cars whose latest flag was true, and the recorded stops are exactly those of the reports |
| PitStops.ExitCloses | backend/app/live/pit_stops.py:115-132 | an exit closes the visit, and is a stop exactly when its entry was observed, it lasted strictly between zero and the limit, and the status at exit is unknown or equals the one at entry |
| PitStops.StopsAreRacingExactlyWhen | backend/app/live/pit_stops.py:118-121 | whatever the cars report, only visits that stay within one session status are recorded if and only if the sequence of session statuses never comes back to one that was left and loses none after a change, or the limit leaves no room for a visit |
| PitStops.OnlyRacingStopsExactlyWhen | backend/app/live/pit_stops.py:118-121 | for one history: the recorded stops are those that stay within one session status exactly when no visit spans a status change that is undone or lost by its exit |
| PitStops.WaitThroughRestartIsRecorded | backend/app/live/pit_stops.py:118-121 | a concrete failure: a car that waits in the lane through an abort and a restart is recorded |
| PitStops.EveryStopIsRecorded | backend/app/live/pit_stops.py:115-132 | every pair of reports that bounds a stop is recorded |
| PitStops.FlagsAreReported | backend/app/live/pit_stops.py:86-100 | a timing payload reports exactly the cars of its lines whose pit flag is a boolean |
| PitStops.StopHasEnds | backend/app/live/pit_stops.py:115-132 | every recorded stop runs from the car's latest non-initial true flag to its next false one |
| PitStops.StopsOfOneCarAreDisjoint | backend/app/live/pit_stops.py:41-48 | when report times never go back, the stops of one car are disjoint and recorded in order |
| PitStops.PitStopTracker.Stops | backend/app/live/pit_stops.py:134-139 | the listing holds the stops of the reports, quickest first by rounded length, then earliest, ties in order of recording |
| PitStops.PitStopTracker.InPitLane | backend/app/live/pit_stops.py:141-144 | exactly the cars whose latest pit flag was true |

## Left out

- KeySkeletons.LogsAlikeExactlyWhen: chooses the values of one object at a time; values inside lists are replaced as a whole, so objects there are not looked into.
- BackfillOrchestration.BackfillStore.RefreshCalendar: takes the season's new sessions and ends as one write; the row loop is `SeasonCalendar.SeasonStore.StoreSchedule`.
- ArchiveWorker.ArchiveDatabase.ProcessNextArchiveJobSession: the heartbeat thread is one of the turns that run in between; failures of the database itself are not modelled.
- ArchivePersistence.SportingTables.ReplaceSession: is the sporting half of the transaction; `ArchiveWorker.ArchiveDatabase.CommitReplacement` adds the claim checks and the control rows.
- PitStops.PitStopTracker.Stops: rounding to one decimal is a parameter; laps are those the caller passes, and the collector passes none.
- LiveCollection.LiveCollector.Handle: position tracking of timing frames is not modelled.
- Lock interleavings, `SKIP LOCKED`, deadlocks and isolation anomalies: each transaction block is one atomic step with one clock reading.
- The unclaimed ingestion path (`backend/app/ingestion/archive_attempt.py`, and a replacement without a claim): the worker does not use it.
- The branch of a claim whose session row is missing: a foreign key keeps the row.
- Job request reasons, record states of control rows, `updated_at` columns and error messages.
- Columns that are only copied (lap timing, tyres, weather of a result) travel as one record; lap and sample row identities are their unique keys; a driver's live reference is never written.
- Cell converters of the results and laps frames, pandas, FastF1, SignalR, asyncio and threads: cells arrive absent, held or rejected.
- JSON text, ISO timestamps, case folding and file I/O: an exact timestamp codec, a folding function and a byte length are parameters; numbers are compared structurally, so `True == 1 == 1.0` is not identified.
- The collector's reconnect loop, position tracking, board rendering, standings and head-to-head reads: they would add only easy members.
- Schedule discovery from the network: a schedule arrives with distinct rounds and session keys.
- The retry of a planning attempt whose coverage turned stale between its two reads, and the per-season advisory lock.
- Authentication, routing and the frontend.
