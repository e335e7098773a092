/**
 The orchestration transactions as methods over the tables they update in place. Each method is proved to be one
 transition of the control plane and to keep its invariant.
 */
module BackfillOrchestration {
  import opened Wrappers
  import opened RuntimePolicy
  import opened ControlPlane
  import opened ControlPlaneInvariant
  import opened ControlPlaneEffects
  import opened Fencing
  import Freshness = FreshnessPolicy

  datatype ReserveResult = Granted | BudgetExhaustedUntil(retryAt: int) {
    function Promise(): Option<int> { if Granted? then None else Some(retryAt) }
  }

  /** The first half of the ownership check: the row and its job, without the session's token. */
  predicate HoldsJobRow(s: State, c: Claim) {
    && c.Key() in s.rows && s.rows[c.Key()].status == Running && s.rows[c.Key()].attemptCount == c.jobAttempt
    && c.job in s.jobs && s.jobs[c.job].status == Running
  }

  class BackfillStore {
    const settings: Settings
    var races: map<SessionId, Race>
    var jobs: map<JobId, Job>
    var rows: map<RowKey, JobSession>
    var ingestions: map<SessionId, Ingestion>
    var gate: Gate
    var ledger: seq<RequestEvent>
    ghost var clock: int

    ghost function Tables(): State
      reads this
    {
      State(races, jobs, rows, ingestions, gate, ledger, clock)
    }

    ghost predicate Valid()
      reads this
    {
      settings.Valid() && Inv(settings, Tables())
    }

    constructor (settings: Settings, races: map<SessionId, Race>, ingestions: map<SessionId, Ingestion>, gate: Gate,
                 ghost start: int)
      requires settings.Valid() && Init(State(races, map[], map[], ingestions, gate, [], start))
      ensures Valid()
      ensures Tables() == State(races, map[], map[], ingestions, gate, [], start) && this.settings == settings
    {
      this.settings, this.races := settings, races;
      this.jobs, this.rows, this.ingestions := map[], map[], ingestions;
      this.gate, this.ledger, this.clock := gate, [], start;
    }

    // -------------------------------------------------------------- claim

    /** The queue query: the first claimable row in queue order. */
    method SelectNextClaim(now: int) returns (head: Option<RowKey>)
      requires RowsWellPlaced(Tables())
      ensures head.None? ==> forall k :: !Claimable(settings, Tables(), now, k)
      ensures head.Some? ==> IsNextClaim(settings, Tables(), now, head.value)
    {
      head := None;
      var left := rows.Keys;
      while left != {}
        invariant left <= rows.Keys
        invariant head.None? ==> forall k :: k in rows && k !in left ==> !Claimable(settings, Tables(), now, k)
        invariant head.Some? ==>
                  head.value in rows && head.value !in left && Claimable(settings, Tables(), now, head.value)
        invariant head.Some? ==>
                    forall k :: k in rows && k !in left && k != head.value && Claimable(settings, Tables(), now, k) ==>
                      ClaimsBefore(rows, head.value, k)
        decreases left
      {
        var k :| k in left;
        left := left - {k};
        var row := rows[k];
        if && jobs[k.job].status.Active()
           && row.status == Pending
           && row.attemptCount < settings.maxAttempts
           && (row.nextRetryAt.None? || row.nextRetryAt.value <= now)
        {
          if head.None? {
            head := Some(k);
          } else if ClaimsBefore(rows, k, head.value) {
            forall other | other in rows && other !in left && other != k && Claimable(settings, Tables(), now, other)
              ensures ClaimsBefore(rows, k, other)
            {
              if other != head.value {
                QueueOrderTransitive(rows, k, head.value, other);
              }
            }
            head := Some(k);
          } else {
            QueueOrderTotal(rows, k, head.value);
          }
        }
      }
    }

    method ClaimNextArchiveJobSession(now: int) returns (outcome: ClaimOutcome)
      requires Valid() && clock <= now
      modifies this
      ensures Valid()
      ensures Next(settings, old(Tables()), ClaimNext(now, outcome), Tables())
      ensures outcome.NoWork? || outcome.Claimed?
      ensures outcome.Claimed? <==> CanClaim(settings, old(Tables()), now)
      ensures outcome.Claimed? ==> Owns(Tables(), outcome.claim)
      ensures outcome.Claimed? ==> Starts(settings, old(Tables()), now, outcome.claim, Tables())
      ensures outcome.NoWork? ==>
                NothingWritten(old(Tables()), Tables()) && NothingToStart(settings, old(Tables()), now)
    {
      ghost var before := Tables();
      outcome := NoWork;
      if gate.nextRequestAt <= now {
        var head := SelectNextClaim(now);
        assert Tables() == before;
        if head.Some? {
          var k := head.value;
          if k.session in ingestions && ingestions[k.session].source != FastF1Archive {
            outcome := SourceConflict(k);
          } else if k.session in ingestions && ingestions[k.session].status == Running {
            outcome := AlreadyRunning(k);
          } else {
            outcome := StartRow(now, k);
          }
        }
      }
      clock := now;
      assert ClaimStep(settings, before, now, outcome, Tables());
      ClaimKeeps(settings, before, now, outcome, Tables());
      ClaimSucceedsExactlyWhenPossible(settings, before, now, outcome, Tables());
      ClaimsStart(settings, before, now, outcome, Tables());
    }

    /** The writes of a claim: gate, job, row and ingestion, in that order. */
    method StartRow(now: int, k: RowKey) returns (outcome: ClaimOutcome)
      requires k in rows && k.job in jobs
      modifies this`gate, this`jobs, this`rows, this`ingestions
      ensures outcome == Claimed(ClaimFor(old(Tables()), now, k))
      ensures Tick(Tables(), now) == ClaimRow(settings, old(Tables()), now, k)
    {
      gate := Gate(now + settings.MinInterval(), Pacing);
      var attempt := rows[k].attemptCount + 1;
      var token := if k.session in ingestions then ingestions[k.session].attemptCount + 1 else 1;

      var job := jobs[k.job];
      jobs := jobs[k.job :=
                   job.(status := Running, startedAt := job.startedAt.Or(Some(now)), heartbeatAt := Some(now))];

      rows := rows[k := rows[k].(status := Running, attemptCount := attempt, startedAt := Some(now),
                                 heartbeatAt := Some(now), nextRetryAt := None, completedAt := None)];

      if k.session !in ingestions {
        ingestions := ingestions[k.session :=
          Ingestion(Running, FastF1Archive, token, Some(now), Some(now), Some(now), None, None, None)];
      } else {
        var i := ingestions[k.session];
        ingestions := ingestions[k.session :=
          i.(status := Running, attemptCount := token, firstStartedAt := i.firstStartedAt.Or(Some(now)),
             lastStartedAt := Some(now), heartbeatAt := Some(now), nextRetryAt := None)];
      }
      outcome := Claimed(Claim(k.job, k.session, attempt, token, now));
    }

    // -------------------------------------------------------------- ownership

    method HoldsRow(claim: Claim) returns (held: bool)
      ensures held <==> HoldsJobRow(Tables(), claim)
    {
      var k := claim.Key();
      held :=
        && k in rows && rows[k].status == Running && rows[k].attemptCount == claim.jobAttempt
        && claim.job in jobs && jobs[claim.job].status == Running;
    }

    method CheckOwnership(claim: Claim) returns (owned: bool)
      ensures owned == Owns(Tables(), claim)
    {
      var k := claim.Key();
      owned :=
        && k in rows && rows[k].status == Running && rows[k].attemptCount == claim.jobAttempt
        && claim.job in jobs && jobs[claim.job].status == Running
        && claim.session in ingestions && ingestions[claim.session].source == FastF1Archive
        && ingestions[claim.session].status == Running
        && ingestions[claim.session].attemptCount == claim.token;
    }

    method HeartbeatArchiveJobSession(now: int, claim: Claim) returns (owned: bool)
      requires Valid() && clock <= now
      modifies this
      ensures Valid()
      ensures Next(settings, old(Tables()), Heartbeat(now, claim), Tables())
      ensures owned == Owns(old(Tables()), claim)
      ensures owned ==> Owns(Tables(), claim) && Beats(old(Tables()), now, claim, Tables())
      ensures !owned ==> NothingWritten(old(Tables()), Tables())
    {
      ghost var before := Tables();
      owned := CheckOwnership(claim);
      if owned {
        Beat(now, claim);
      }
      clock := now;
      assert Tables() == HeartbeatStep(before, now, claim);
      HeartbeatKeeps(settings, before, now, claim);
      HeartbeatBeats(before, now, claim);
    }

    method Beat(now: int, claim: Claim)
      requires Owns(Tables(), claim)
      modifies this`rows, this`jobs, this`ingestions
      ensures Tick(Tables(), now) == HeartbeatStep(old(Tables()), now, claim)
    {
      var k := claim.Key();
      rows := rows[k := rows[k].(heartbeatAt := Some(now))];
      jobs := jobs[claim.job := jobs[claim.job].(heartbeatAt := Some(now))];
      ingestions := ingestions[claim.session := ingestions[claim.session].(heartbeatAt := Some(now))];
    }

    method TransitionArchiveJobFailure(now: int, claim: Claim, failure: Failure, jitter: real) returns (owned: bool)
      requires Valid() && clock <= now && 0.0 <= jitter <= 1.0
      modifies this
      ensures Valid()
      ensures Next(settings, old(Tables()), Fail(now, claim, failure, jitter), Tables())
      ensures owned == Owns(old(Tables()), claim)
      ensures !Owns(Tables(), claim)
      ensures owned && failure.Retryable? && claim.jobAttempt < settings.maxAttempts ==>
                && rows[claim.Key()].status == Pending && rows[claim.Key()].nextRetryAt.Some?
                && now <= rows[claim.Key()].nextRetryAt.value <= now + settings.backoffCap * SECOND
                && RetryInstant(settings, now, claim.jobAttempt, jitter, rows[claim.Key()].nextRetryAt.value)
      ensures owned && (failure.Terminal? || (failure.Retryable? && settings.maxAttempts <= claim.jobAttempt)) ==>
                rows[claim.Key()].status == Failed && rows[claim.Key()].nextRetryAt == None
      ensures owned && failure.BudgetExhausted? ==>
                rows[claim.Key()].status == Pending && rows[claim.Key()].nextRetryAt == Some(failure.retryAt)
      ensures owned && failure.RateLimited? ==>
                rows[claim.Key()].status == Pending && rows[claim.Key()].nextRetryAt == Some(now + settings.Cooldown())
      ensures owned ==> FailsAs(settings, old(Tables()), now, claim, failure, jitter, Tables())
      ensures !owned ==> NothingWritten(old(Tables()), Tables())
    {
      ghost var before := Tables();
      owned := CheckOwnership(claim);
      if owned {
        ReleaseFailedClaim(now, claim, failure, jitter);
      }
      clock := now;
      assert Tables() == FailStep(settings, before, now, claim, failure, jitter);
      FailKeeps(settings, before, now, claim, failure, jitter);
      FailureFails(settings, before, now, claim, failure, jitter);
    }

    /** The writes of an owned failure: the gate if upstream must rest, then the row and its ingestion alike. */
    method ReleaseFailedClaim(now: int, claim: Claim, failure: Failure, jitter: real)
      requires Owns(Tables(), claim)
      modifies this`gate, this`rows, this`ingestions
      ensures Tick(Tables(), now) == FailStep(settings, old(Tables()), now, claim, failure, jitter)
    {
      var k := claim.Key();
      var status, retryAt, attempts := Failed, None, rows[k].attemptCount;
      if failure.Pauses() {
        var until := if failure.BudgetExhausted? then failure.retryAt else now + settings.Cooldown();
        status, retryAt := Pending, Some(until);
        attempts := attempts - 1;
        gate := Gate(if gate.nextRequestAt < until then until else gate.nextRequestAt,
                     if failure.BudgetExhausted? then Budget else RateLimit);
      } else if failure.Retryable? && claim.jobAttempt < settings.maxAttempts {
        var schedule := CalculateRetrySchedule(now, claim.jobAttempt, jitter, settings);
        if schedule.Ok? {
          status, retryAt := Pending, Some(schedule.value.nextRetryAt);
        }
      }
      var error := Some(ArchiveFailure(failure.code));
      rows := rows[k := rows[k].(status := status, attemptCount := attempts, heartbeatAt := None,
                                 nextRetryAt := retryAt, lastError := error)];
      ingestions := ingestions[claim.session := ingestions[claim.session].(
        status := status, heartbeatAt := None, nextRetryAt := retryAt, lastError := error)];
    }

    /** The control rows that an archive replacement completes together with its sporting data. */
    method CompleteClaim(now: int, claim: Claim) returns (owned: bool)
      requires Valid() && clock <= now
      modifies this
      ensures Valid()
      ensures Next(settings, old(Tables()), Complete(now, claim), Tables())
      ensures owned == Owns(old(Tables()), claim)
      ensures owned ==> Completes(old(Tables()), now, claim, Tables())
      ensures !owned ==> NothingWritten(old(Tables()), Tables())
      ensures !Owns(Tables(), claim)
    {
      ghost var before := Tables();
      owned := CheckOwnership(claim);
      if owned {
        MarkCompleted(now, claim);
      }
      clock := now;
      assert Tables() == CompleteStep(before, now, claim);
      CompleteKeeps(settings, before, now, claim);
      CompletionCompletes(before, now, claim);
    }

    /** The ingestion first, then the row and its job. */
    method MarkCompleted(now: int, claim: Claim)
      requires Owns(Tables(), claim)
      modifies this`rows, this`jobs, this`ingestions
      ensures Tick(Tables(), now) == CompleteStep(old(Tables()), now, claim)
    {
      var k := claim.Key();
      ingestions := ingestions[claim.session := ingestions[claim.session].(
        status := Completed, completedAt := Some(now), heartbeatAt := None, nextRetryAt := None, lastError := None)];
      rows := rows[k := rows[k].(status := Completed, heartbeatAt := None, nextRetryAt := None,
                                 completedAt := Some(now), lastError := None)];
      jobs := jobs[claim.job := jobs[claim.job].(heartbeatAt := Some(now))];
    }

    // -------------------------------------------------------------- recovery

    /** The stalest expired lease that has not been picked yet. */
    method SelectNextStale(now: int, picked: seq<RowKey>) returns (next: Option<RowKey>)
      requires RowsWellPlaced(Tables())
      ensures next.None? ==> forall k :: StaleRow(settings, Tables(), now, k) ==> k in picked
      ensures next.Some? ==>
                && StaleRow(settings, Tables(), now, next.value) && next.value !in picked
                && forall k :: StaleRow(settings, Tables(), now, k) && k !in picked && k != next.value ==>
                     StalerThan(rows, next.value, k)
    {
      next := None;
      var left := rows.Keys;
      while left != {}
        invariant left <= rows.Keys
        invariant next.None? ==>
                    forall k :: k in rows && k !in left && StaleRow(settings, Tables(), now, k) ==> k in picked
        invariant next.Some? ==>
                    next.value in rows && next.value !in left && next.value !in picked
                    && StaleRow(settings, Tables(), now, next.value)
        invariant next.Some? ==>
                    forall k ::
                      k in rows && k !in left && k !in picked && k != next.value && StaleRow(settings, Tables(), now, k)
                      ==> StalerThan(rows, next.value, k)
        decreases left
      {
        var k :| k in left;
        left := left - {k};
        if && jobs[k.job].status == Running
           && rows[k].status == Running
           && rows[k].heartbeatAt.Some?
           && rows[k].heartbeatAt.value < now - settings.LeaseTimeout()
           && k !in picked
        {
          if next.None? || StalerThan(rows, k, next.value) {
            next := Some(k);
          } else {
            assert k.job != next.value.job || k.session != next.value.session;
          }
        }
      }
    }

    /** The recovery query: at most `batch` expired leases, stalest first. */
    method SelectStale(now: int, batch: nat) returns (keys: seq<RowKey>)
      requires RowsWellPlaced(Tables())
      ensures IsStaleBatch(settings, Tables(), now, batch, keys)
    {
      keys := [];
      while |keys| < batch
        invariant |keys| <= batch
        invariant forall i :: 0 <= i < |keys| ==> StaleRow(settings, Tables(), now, keys[i])
        invariant forall i, j :: 0 <= i < j < |keys| ==> keys[i] != keys[j] && StalerThan(rows, keys[i], keys[j])
        invariant forall k, i :: StaleRow(settings, Tables(), now, k) && k !in keys && 0 <= i < |keys| ==>
                    StalerThan(rows, keys[i], k)
        decreases batch - |keys|
      {
        var next := SelectNextStale(now, keys);
        if next.None? {
          return;
        }
        keys := keys + [next.value];
      }
    }

    method RecoverOne(now: int, k: RowKey, jitter: real)
      requires k in rows
      modifies this`jobs, this`rows, this`ingestions
      ensures Tables() == RecoverRow(settings, old(Tables()), now, k, jitter)
    {
      if k.job !in jobs || jobs[k.job].status != Running {
        return;
      }
      if || k.session !in ingestions || ingestions[k.session].source != FastF1Archive
         || ingestions[k.session].status != Running || rows[k].attemptCount < 1
      {
        return;
      }
      var beat := ingestions[k.session].heartbeatAt;
      if beat.None? || now - settings.LeaseTimeout() <= beat.value {
        return;
      }
      var status, retryAt := Failed, None;
      if rows[k].attemptCount < settings.maxAttempts {
        var schedule := CalculateRetrySchedule(now, rows[k].attemptCount, jitter, settings);
        if schedule.Ok? {
          status, retryAt := Pending, Some(schedule.value.nextRetryAt);
        }
      }
      rows := rows[k := rows[k].(status := status, heartbeatAt := None, nextRetryAt := retryAt,
                                 lastError := Some(WorkerLeaseExpired))];
      ingestions := ingestions[k.session := ingestions[k.session].(
        status := status, heartbeatAt := None, nextRetryAt := retryAt, lastError := Some(WorkerLeaseExpired))];
      jobs := jobs[k.job := jobs[k.job].(heartbeatAt := Some(now))];
      assert rows[k].attemptCount == old(rows)[k].attemptCount - 0;
    }

    method RecoverEach(now: int, keys: seq<RowKey>, jitters: seq<real>)
      requires |jitters| == |keys| && forall i :: 0 <= i < |keys| ==> keys[i] in rows
      modifies this`jobs, this`rows, this`ingestions
      ensures Tables() == RecoverRows(settings, old(Tables()), now, keys, jitters)
    {
      ghost var before := Tables();
      for i := 0 to |keys|
        invariant Tables() == RecoverRows(settings, before, now, keys[..i], jitters[..i])
        invariant rows.Keys == before.rows.Keys
      {
        assert keys[..i + 1][..i] == keys[..i] && jitters[..i + 1][..i] == jitters[..i];
        RecoverOne(now, keys[i], jitters[i]);
        RecoverKeepsAttempts(settings, before, now, keys[..i + 1], jitters[..i + 1]);
      }
      assert keys[..|keys|] == keys && jitters[..|keys|] == jitters;
    }

    method RecoverStaleArchiveJobSessions(now: int, batch: nat, jitters: seq<real>) returns (recovered: seq<RowKey>)
      requires Valid() && clock <= now && |jitters| == batch
      requires forall i :: 0 <= i < |jitters| ==> 0.0 <= jitters[i] <= 1.0
      modifies this
      ensures Valid() && clock == now
      ensures |recovered| <= batch
      ensures Next(settings, old(Tables()), Recover(now, batch, recovered, jitters[..|recovered|]), Tables())
      ensures LongestUnbeaten(settings, old(Tables()), now, batch, recovered)
      ensures ReleasesExpired(settings, old(Tables()), now, recovered, jitters[..|recovered|], Tables())
    {
      ghost var before := Tables();
      recovered := SelectStale(now, batch);
      assert Tables() == before;
      RecoverEach(now, recovered, jitters[..|recovered|]);
      clock := now;
      RecoveryKeeps(settings, before, now, batch, recovered, jitters[..|recovered|], Tables());
      RecoveryHasItsEffect(settings, before, Recover(now, batch, recovered, jitters[..|recovered|]), Tables());
    }

    // -------------------------------------------------------------- aggregation

    method EarliestStart(job: JobId) returns (earliest: Option<int>)
      ensures IsEarliestStart(Tables(), job, earliest)
    {
      earliest := None;
      var left := rows.Keys;
      while left != {}
        invariant left <= rows.Keys
        invariant earliest.None? ==>
                    forall k :: k in rows && k !in left && k.job == job ==> rows[k].startedAt.None?
        invariant earliest.Some? ==>
                    exists k :: k in rows && k.job == job && rows[k].startedAt == earliest
        invariant earliest.Some? ==>
                    forall k :: k in rows && k !in left && k.job == job && rows[k].startedAt.Some? ==>
                      earliest.value <= rows[k].startedAt.value
        decreases left
      {
        var k :| k in left;
        left := left - {k};
        if k.job == job && rows[k].startedAt.Some? {
          if earliest.None? || rows[k].startedAt.value < earliest.value {
            earliest := rows[k].startedAt;
          }
        }
      }
    }

    method CountRows(job: JobId, status: Status) returns (count: nat)
      ensures count == |RowsWith(Tables(), job, status)|
      ensures 0 < count <==> HasRow(Tables(), job, status)
    {
      var counted := set k | k in rows && k.job == job && rows[k].status == status;
      count := |counted|;
      assert counted == RowsWith(Tables(), job, status);
      if HasRow(Tables(), job, status) {
        var k :| k in rows && k.job == job && rows[k].status == status;
        assert k in counted;
      } else {
        assert counted == {};
      }
    }

    method CountAllRows(job: JobId) returns (counts: RowCounts)
      ensures CountsOf(Tables(), job, counts)
    {
      var pending := CountRows(job, Pending);
      var running := CountRows(job, Running);
      var completed := CountRows(job, Completed);
      var failed := CountRows(job, Failed);
      counts := RowCounts(pending, running, completed, failed);
    }

    method AggregateBackfillJob(now: int, j: JobId) returns (counts: RowCounts, ghost earliest: Option<int>)
      requires Valid() && clock <= now && j in jobs
      modifies this
      ensures Valid() && clock == now
      ensures Next(settings, old(Tables()), Aggregate(now, j, earliest), Tables())
      ensures CountsOf(Tables(), j, counts)
      ensures jobs[j].status.Active() <==> HasActiveRow(Tables(), j)
      ensures Aggregates(old(Tables()), now, j, earliest, Tables())
    {
      ghost var before := Tables();
      counts := CountAllRows(j);
      var first := EarliestStart(j);
      earliest := first;
      assert Tables() == before;
      if jobs[j].status != Completed && jobs[j].status != Failed {
        ApplyAggregation(now, j, counts, first);
      }
      clock := now;
      assert Tables() == AggregateStep(before, now, j, earliest);
      AggregationDone(settings, before, now, j, earliest, counts, Tables());
    }

    /** Derives the parent status from the counts and writes the parent row. */
    method ApplyAggregation(now: int, j: JobId, counts: RowCounts, first: Option<int>)
      requires j in jobs && jobs[j].status.Active() && exists k :: k in rows && k.job == j
      requires CountsOf(Tables(), j, counts)
      modifies this`jobs
      ensures Tick(Tables(), now) == AggregateStep(old(Tables()), now, j, first)
    {
      var job := jobs[j];
      var attempted := exists k :: k in rows && k.job == j && 0 < rows[k].attemptCount;
      var status := Completed;
      if 0 < counts.pending || 0 < counts.running {
        var started := job.status == Running || job.startedAt.Some? || 0 < counts.running || 0 < counts.completed
                       || 0 < counts.failed || attempted;
        status := if started then Running else Pending;
      } else if 0 < counts.failed {
        status := Failed;
      }
      assert status == DeriveJobStatus(Tables(), j);
      job := job.(status := status);
      if status != Pending {
        job := job.(startedAt := job.startedAt.Or(first).Or(Some(now)));
      }
      if status == Completed || status == Failed {
        job := job.(heartbeatAt := None, completedAt := job.completedAt.Or(Some(now)));
      }
      if 0 < counts.failed {
        job := job.(lastError := Some(SessionIngestionFailed));
      } else if status == Completed || job.lastError == Some(SessionIngestionFailed) {
        job := job.(lastError := None);
      }
      jobs := jobs[j := job];
    }

    // -------------------------------------------------------------- planning

    method FindActiveJob(season: int) returns (active: Option<JobId>)
      ensures IsActiveJob(Tables(), season, active)
    {
      if j :| j in jobs && jobs[j].season == season && jobs[j].status.Active() {
        active := Some(j);
      } else {
        active := None;
      }
    }

    method CollectEligible(now: int, calendar: seq<SessionId>, hasActiveJob: bool)
      returns (r: Result<seq<SessionId>, Freshness.FreshnessError>)
      requires forall i :: 0 <= i < |calendar| ==> calendar[i] in races
      ensures r == EligibleSessions(settings, Tables(), now, calendar, hasActiveJob)
    {
      var eligible := [];
      for i := 0 to |calendar|
        invariant EligibleSessions(settings, Tables(), now, calendar[..i], hasActiveJob) == Ok(eligible)
      {
        var session := calendar[i];
        assert calendar[..i + 1][..i] == calendar[..i];
        if session in ingestions && ingestions[session].source != FastF1Archive {
          continue;
        }
        if !hasActiveJob && session in ingestions && ingestions[session].status.Active() {
          continue;
        }
        var completedAt := if session in ingestions then ingestions[session].completedAt else None;
        var verdict := Freshness.EvaluateArchiveIngestion(races[session].scheduledEnd, completedAt, now, settings);
        if verdict.Err? {
          ErrorStopsCollection(settings, Tables(), now, calendar, hasActiveJob, i + 1, verdict.error);
          return Err(verdict.error);
        }
        if verdict.value.eligible {
          eligible := eligible + [session];
        }
      }
      assert calendar[..|calendar|] == calendar;
      r := Ok(eligible);
    }

    /** Queues each eligible session that the job lacks and that nobody is working on. */
    method QueueEligible(now: int, id: JobId, eligible: seq<SessionId>) returns (queued: seq<SessionId>)
      requires forall i, j :: 0 <= i < j < |eligible| ==> eligible[i] != eligible[j]
      modifies this`rows
      ensures rows == QueueRows(old(Tables()), now, id, eligible)
      ensures forall session :: session in queued <==> RowKey(id, session) in rows && RowKey(id, session) !in old(rows)
    {
      ghost var before := Tables();
      queued := [];
      for i := 0 to |eligible|
        invariant rows == QueueRows(before, now, id, eligible[..i])
        invariant forall session :: session in queued <==>
                  RowKey(id, session) in rows && RowKey(id, session) !in before.rows
      {
        var session := eligible[i];
        assert eligible[..i + 1][..i] == eligible[..i];
        QueueRowsMeaning(before, now, id, eligible[..i]);
        assert session !in eligible[..i];
        if RowKey(id, session) in rows {
          continue;
        }
        if session in ingestions && ingestions[session].status.Active() {
          continue;
        }
        rows := rows[RowKey(id, session) := JobSession(Pending, 0, now, None, None, None, None, None)];
        queued := queued + [session];
      }
      assert eligible[..|eligible|] == eligible;
    }

    /** The planner's job step: reuse or create the season's active job, then queue what it lacks. */
    method CreateOrReuseJob(now: int, season: int, calendar: seq<SessionId>, freshId: JobId)
      returns (job: Option<JobId>, queued: seq<SessionId>, ghost active: Option<JobId>)
      requires Valid() && clock <= now && CalendarRows(Tables(), season, calendar) && freshId !in jobs
      modifies this
      ensures Valid()
      ensures Next(settings, old(Tables()), Plan(now, season, calendar, active, freshId), Tables())
      ensures job.None? ==> queued == [] && rows == old(rows) && jobs == old(jobs)
      ensures Plans(settings, old(Tables()), now, season, calendar, active, freshId, Tables())
      ensures job.Some? ==> job.value in jobs && jobs[job.value].season == season && jobs[job.value].status.Active()
      ensures job.Some? ==> forall session :: session in queued <==>
                RowKey(job.value, session) in rows && RowKey(job.value, session) !in old(rows)
    {
      ghost var before := Tables();
      job := FindActiveJob(season);
      active := job;
      var collected := CollectEligible(now, calendar, job.Some?);
      assert Tables() == before;
      EligibleSessionsMeaning(settings, before, now, season, calendar, job.Some?);
      var eligible := collected.value;
      queued := [];
      if job.None? && eligible != [] {
        jobs := jobs[freshId := Job(season, Pending, None, None, None, None)];
        job := Some(freshId);
      }
      if job.Some? {
        queued := QueueEligible(now, job.value, eligible);
        QueueRowsReadsNoJobs(before, before.(jobs := jobs), now, job.value, eligible);
      }
      clock := now;
      assert Tables() == PlanStep(settings, before, now, season, calendar, active, freshId);
      PlanKeeps(settings, before, now, season, calendar, active, freshId);
      PlanningPlans(settings, before, now, season, calendar, active, freshId);
    }

    // -------------------------------------------------------------- request budget

    method ReserveRequest(now: int, operation: Operation) returns (result: ReserveResult)
      requires Valid() && clock <= now
      modifies this
      ensures Valid()
      ensures Next(settings, old(Tables()), Reserve(now, operation), Tables())
      ensures Refusal(settings, old(Tables()), now) == result.Promise()
      ensures Reserves(settings, old(Tables()), now, operation, result.Promise(), Tables())
    {
      ghost var before := Tables();
      if gate.reason != Pacing && now < gate.nextRequestAt {
        result := BudgetExhaustedUntil(gate.nextRequestAt);
      } else {
        result := ReserveInWindow(now, operation);
      }
      clock := now;
      assert Tables() == ReserveStep(settings, before, now, operation);
      ReservationReserves(settings, before, now, operation);
      IgnoresGateAndTime(settings, before, Tables());
    }

    /** The count, then either the refusal and its new deadline, or the insert, the pruning and the reopened gate. */
    method ReserveInWindow(now: int, operation: Operation) returns (result: ReserveResult)
      requires gate.reason == Pacing || gate.nextRequestAt <= now
      modifies this`gate, this`ledger
      ensures Tick(Tables(), now) == ReserveStep(settings, old(Tables()), now, operation)
      ensures Refusal(settings, old(Tables()), now) == result.Promise()
    {
      ghost var before := Tables();
      var cutoff := now - settings.Window();
      var observed := CountSince(ledger, cutoff);
      if settings.requestOperationalCeiling <= observed {
        var retryAt := OldestSince(ledger, cutoff).GetOr(now) + settings.Window();
        assert Refusal(settings, before, now) == Some(retryAt);
        gate := Gate(if gate.nextRequestAt < retryAt then retryAt else gate.nextRequestAt, Budget);
        result := BudgetExhaustedUntil(retryAt);
      } else {
        assert Refusal(settings, before, now) == None;
        ledger := ledger + [RequestEvent(operation, now)];
        ledger := KeepSince(ledger, now - EVENT_RETENTION);
        if gate.reason == Budget {
          gate := Gate(now, Pacing);
        }
        result := Granted;
      }
    }

    // -------------------------------------------------------------- the calendar

    /** A stored schedule: sessions are added or their ends moved, all within one season. */
    method RefreshCalendar(now: int, season: int, scheduled: map<SessionId, Race>)
      requires Valid() && clock <= now && RefreshesSeason(races, season, scheduled)
      modifies this
      ensures Valid()
      ensures Next(settings, old(Tables()), Refresh(now, season, scheduled), Tables())
    {
      ghost var before := Tables();
      races := scheduled;
      clock := now;
      RefreshKeeps(settings, before, now, season, scheduled);
    }

    // -------------------------------------------------------------- maintenance

    /** Recovery followed by reconciliation: afterwards every job that is still active has work left. */
    method PerformWorkerMaintenance(now: int, later: int, batch: nat, jitters: seq<real>)
      requires Valid() && clock <= now <= later && |jitters| == batch
      requires forall i :: 0 <= i < |jitters| ==> 0.0 <= jitters[i] <= 1.0
      modifies this
      ensures Valid()
      ensures forall j :: j in jobs ==> Reconciled(Tables(), j)
    {
      var recovered := RecoverStaleArchiveJobSessions(now, batch, jitters);
      ReconcileActiveJobs(later);
    }

    /** Aggregates every active job once. */
    method ReconcileActiveJobs(later: int)
      requires Valid() && clock <= later
      modifies this
      ensures Valid()
      ensures forall j :: j in jobs ==> Reconciled(Tables(), j)
    {
      TerminalJobsAreReconciled(settings, Tables());
      var ids := Listed(set j | j in jobs && jobs[j].status.Active());
      var i := 0;
      while i < |ids|
        invariant i <= |ids| && Valid() && clock <= later && jobs.Keys == old(jobs.Keys)
        invariant AllReconciledBut(Tables(), ids[i..])
      {
        var id := ids[i];
        assert id in ids && ids[i..] == [id] + ids[i + 1..];
        ReconcileJob(later, id, ids[i + 1..]);
        i := i + 1;
      }
    }

    method ReconcileJob(now: int, j: JobId, ghost left: seq<JobId>)
      requires Valid() && clock <= now && j in jobs && AllReconciledBut(Tables(), [j] + left)
      modifies this
      ensures Valid() && clock == now && jobs.Keys == old(jobs.Keys)
      ensures AllReconciledBut(Tables(), left)
    {
      ghost var before := Tables();
      var counts, earliest := AggregateBackfillJob(now, j);
      ReconciledElsewhere(before, Tables(), j);
    }
  }

  ghost predicate AllReconciledBut(s: State, left: seq<JobId>) {
    forall j :: j in s.jobs && j !in left ==> Reconciled(s, j)
  }

  ghost predicate Reconciled(s: State, j: JobId)
    requires j in s.jobs
  {
    s.jobs[j].status.Active() <==> HasActiveRow(s, j)
  }

  lemma TerminalJobsAreReconciled(settings: Settings, s: State)
    requires Inv(settings, s)
    ensures forall j :: j in s.jobs && !s.jobs[j].status.Active() ==> Reconciled(s, j)
  {
  }

  lemma ReconciledElsewhere(s: State, t: State, j: JobId)
    requires j in s.jobs && j in t.jobs && t.rows == s.rows && t.jobs == s.jobs[j := t.jobs[j]]
    ensures forall i :: i in s.jobs && i != j && Reconciled(s, i) ==> Reconciled(t, i)
  {
    forall i | i in s.jobs ensures HasActiveRow(t, i) == HasActiveRow(s, i) {
      assert HasRow(t, i, Pending) == HasRow(s, i, Pending);
    }
  }

  /** The members of a query result, each exactly once. */
  method Listed(found: set<JobId>) returns (ids: seq<JobId>)
    ensures forall j :: j in ids <==> j in found
    ensures forall i, j :: 0 <= i < j < |ids| ==> ids[i] != ids[j]
  {
    ids := [];
    var left := found;
    while true
      invariant left <= found
      invariant forall j :: j in ids <==> j in found && j !in left
      invariant forall i, j :: 0 <= i < j < |ids| ==> ids[i] != ids[j]
      decreases left
    {
      if id :| id in left {
        left := left - {id};
        ids := ids + [id];
      } else {
        break;
      }
    }
  }

  datatype RowCounts = RowCounts(pending: nat, running: nat, completed: nat, failed: nat)

  ghost predicate CountsOf(s: State, job: JobId, counts: RowCounts) {
    && counts.pending == |RowsWith(s, job, Pending)| && (0 < counts.pending <==> HasRow(s, job, Pending))
    && counts.running == |RowsWith(s, job, Running)| && (0 < counts.running <==> HasRow(s, job, Running))
    && counts.completed == |RowsWith(s, job, Completed)| && (0 < counts.completed <==> HasRow(s, job, Completed))
    && counts.failed == |RowsWith(s, job, Failed)| && (0 < counts.failed <==> HasRow(s, job, Failed))
  }

  lemma {:induction false} QueueRowsReadsNoJobs(s: State, t: State, now: int, job: JobId, eligible: seq<SessionId>)
    requires t == s.(jobs := t.jobs)
    ensures QueueRows(t, now, job, eligible) == QueueRows(s, now, job, eligible)
  {
    if eligible != [] {
      QueueRowsReadsNoJobs(s, t, now, job, eligible[..|eligible| - 1]);
    }
  }

  lemma RecoveryKeeps(settings: Settings, s: State, now: int, batch: nat, keys: seq<RowKey>, jitters: seq<real>,
                      t: State)
    requires settings.Valid() && Inv(settings, s) && s.clock <= now && |jitters| == |keys|
    requires IsStaleBatch(settings, s, now, batch, keys) && t == Tick(RecoverRows(settings, s, now, keys, jitters), now)
    ensures Inv(settings, t)
  {
    RecoverKeeps(settings, s, now, keys, jitters);
    IgnoresGateAndTime(settings, RecoverRows(settings, s, now, keys, jitters), t);
  }

  /** What one aggregation step comes to. */
  lemma AggregationDone(settings: Settings, s: State, now: int, j: JobId, earliest: Option<int>, counts: RowCounts,
                        t: State)
    requires Inv(settings, s) && s.clock <= now && j in s.jobs && CountsOf(s, j, counts)
    requires t == AggregateStep(s, now, j, earliest)
    ensures Inv(settings, t) && Aggregates(s, now, j, earliest, t) && CountsOf(t, j, counts)
    ensures t.jobs[j].status.Active() <==> HasActiveRow(t, j)
  {
    AggregateKeeps(settings, s, now, j, earliest);
    AggregationAggregates(settings, s, now, j, earliest);
    AggregationSettles(settings, s, now, j, earliest, counts);
  }

  /** Aggregation leaves a job active exactly when it still has pending or running rows. */
  lemma AggregationSettles(settings: Settings, s: State, now: int, j: JobId, earliest: Option<int>, counts: RowCounts)
    requires Inv(settings, s) && j in s.jobs && CountsOf(s, j, counts)
    ensures var t := AggregateStep(s, now, j, earliest);
            && (t.jobs[j].status.Active() <==> HasActiveRow(t, j))
            && CountsOf(t, j, counts)
  {
    var t := AggregateStep(s, now, j, earliest);
    SameRowsSameCounts(s, t, j, counts);
    var someRow :| someRow in s.rows && someRow.job == j;
    if HasActiveRow(s, j) {
      var k :| k in s.rows && k.job == j && s.rows[k].status.Active();
    }
  }

  lemma SameRowsSameCounts(s: State, t: State, j: JobId, counts: RowCounts)
    requires t.rows == s.rows && CountsOf(s, j, counts)
    ensures CountsOf(t, j, counts) && HasActiveRow(t, j) == HasActiveRow(s, j)
  {
    assert forall status :: RowsWith(t, j, status) == RowsWith(s, j, status);
  }

  lemma {:induction false} ErrorStopsCollection(settings: Settings, s: State, now: int, calendar: seq<SessionId>,
                                                hasActiveJob: bool,
                                                n: nat, error: Freshness.FreshnessError)
    requires n <= |calendar| && forall i :: 0 <= i < |calendar| ==> calendar[i] in s.races
    requires EligibleSessions(settings, s, now, calendar[..n], hasActiveJob) == Err(error)
    ensures EligibleSessions(settings, s, now, calendar, hasActiveJob) == Err(error)
  {
    if n < |calendar| {
      var m := |calendar| - 1;
      assert calendar[..m][..n] == calendar[..n];
      ErrorStopsCollection(settings, s, now, calendar[..m], hasActiveJob, n, error);
    } else {
      assert calendar[..n] == calendar;
    }
  }
}
