/**
 What each transaction does to the tables, column by column: who is written, what is written, and that nothing else
 is. The transitions of the control plane are proved to have these effects and no others.
 */
module ControlPlaneEffects {
  import opened Wrappers
  import opened RuntimePolicy
  import opened ControlPlane
  import opened ControlPlaneInvariant
  import Freshness = FreshnessPolicy

  // ---------------------------------------------------------------- shared clauses

  /** All tables are as they were; only time has passed. */
  ghost predicate NothingWritten(s: State, t: State) {
    t.races == s.races && t.jobs == s.jobs && t.rows == s.rows && t.ingestions == s.ingestions && t.gate == s.gate
    && t.ledger == s.ledger
  }

  /** One row, its session's ingestion and its job may have changed, and the gate; nothing else has. */
  ghost predicate WritesOnly(s: State, k: RowKey, t: State) {
    && k in t.rows && k.job in t.jobs && k.session in t.ingestions
    && t.races == s.races && t.ledger == s.ledger
    && t.rows == s.rows[k := t.rows[k]]
    && t.jobs == s.jobs[k.job := t.jobs[k.job]]
    && t.ingestions == s.ingestions[k.session := t.ingestions[k.session]]
  }

  /** The row and its ingestion are no longer running: same status, same retry, same diagnostic, no heartbeat. */
  ghost predicate Leaves(s: State, k: RowKey, status: Status, retryAt: Option<int>, error: Diagnostic, attempts: int,
                         t: State)
  {
    && k in s.rows && k.session in s.ingestions && k in t.rows && k.session in t.ingestions
    && t.rows[k] == s.rows[k].(status := status, attemptCount := attempts, heartbeatAt := None, nextRetryAt := retryAt,
                               lastError := Some(error))
    && t.ingestions[k.session]
          == s.ingestions[k.session].(status := status, heartbeatAt := None, nextRetryAt := retryAt,
                                                           lastError := Some(error))
  }

  // ---------------------------------------------------------------- claim, heartbeat, completion

  /** A pending row of an active job with attempts left, whose retry instant has passed. */
  ghost predicate MayStart(settings: Settings, s: State, now: int, k: RowKey) {
    && k in s.rows && k.job in s.jobs
    && (s.jobs[k.job].status == Pending || s.jobs[k.job].status == Running)
    && s.rows[k].status == Pending && s.rows[k].attemptCount < settings.maxAttempts
    && (s.rows[k].nextRetryAt.None? || s.rows[k].nextRetryAt.value <= now)
  }

  /**
   Rows without a retry come first, then earlier retries; then the longer queued, the lower job, the lower session.
   */
  ghost predicate NoLaterInQueue(s: State, a: RowKey, b: RowKey)
    requires a in s.rows && b in s.rows
  {
    var x, y := s.rows[a], s.rows[b];
    && (x.nextRetryAt.Some? ==> y.nextRetryAt.Some? && x.nextRetryAt.value <= y.nextRetryAt.value)
    && (x.nextRetryAt == y.nextRetryAt ==>
          && x.queuedAt <= y.queuedAt
          && (x.queuedAt == y.queuedAt ==> a.job <= b.job && (a.job == b.job ==> a.session <= b.session)))
  }

  /** Nothing can start: the gate is closed, or no row is ready. */
  ghost predicate NothingToStart(settings: Settings, s: State, now: int) {
    now < s.gate.nextRequestAt || forall k :: !MayStart(settings, s, now, k)
  }

  /** A claim writes the gate, the job, the row and the ingestion, and counts up both attempt counters. */
  ghost predicate Starts(settings: Settings, s: State, now: int, c: Claim, t: State) {
    var k := c.Key();
    && s.gate.nextRequestAt <= now && MayStart(settings, s, now, k) && WritesOnly(s, k, t)
    && (forall other :: MayStart(settings, s, now, other) ==> NoLaterInQueue(s, k, other))
    && c.claimedAt == now && c.jobAttempt == s.rows[k].attemptCount + 1
    && c.token == (if c.session in s.ingestions then s.ingestions[c.session].attemptCount else 0) + 1
    && t.gate == Gate(now + settings.archiveSessionMinInterval * SECOND, Pacing)
    && t.jobs[c.job] == s.jobs[c.job].(
         status := Running, heartbeatAt := Some(now),
         startedAt := if s.jobs[c.job].startedAt.Some? then s.jobs[c.job].startedAt else Some(now))
    && t.rows[k] == s.rows[k].(status := Running, attemptCount := c.jobAttempt, startedAt := Some(now),
                               heartbeatAt := Some(now), nextRetryAt := None, completedAt := None)
    && (c.session in s.ingestions ==>
          t.ingestions[c.session] == s.ingestions[c.session].(
            status := Running, attemptCount := c.token, lastStartedAt := Some(now), heartbeatAt := Some(now),
            nextRetryAt := None,
            firstStartedAt := if s.ingestions[c.session].firstStartedAt.Some?
              then s.ingestions[c.session].firstStartedAt
                              else Some(now)))
    && (c.session !in s.ingestions ==>
          t.ingestions[c.session]
          == Ingestion(Running, FastF1Archive, 1, Some(now), Some(now), Some(now), None, None, None))
  }

  lemma ClaimsStart(settings: Settings, s: State, now: int, outcome: ClaimOutcome, t: State)
    requires ClaimStep(settings, s, now, outcome, t)
    ensures outcome.Claimed? ==> Starts(settings, s, now, outcome.claim, t)
    ensures !outcome.Claimed? ==> NothingWritten(s, t)
    ensures outcome.NoWork? ==> NothingToStart(settings, s, now)
  {
    forall k ensures MayStart(settings, s, now, k) <==> Claimable(settings, s, now, k) {
    }
  }

  /** A heartbeat renews the row, its job and its ingestion, and writes nothing else. */
  ghost predicate Beats(s: State, now: int, c: Claim, t: State) {
    var k := c.Key();
    && k in s.rows && c.job in s.jobs && c.session in s.ingestions && WritesOnly(s, k, t) && t.gate == s.gate
    && t.rows[k] == s.rows[k].(heartbeatAt := Some(now))
    && t.jobs[c.job] == s.jobs[c.job].(heartbeatAt := Some(now))
    && t.ingestions[c.session] == s.ingestions[c.session].(heartbeatAt := Some(now))
  }

  lemma HeartbeatBeats(s: State, now: int, c: Claim)
    ensures Owns(s, c) ==> Beats(s, now, c, HeartbeatStep(s, now, c))
    ensures !Owns(s, c) ==> NothingWritten(s, HeartbeatStep(s, now, c))
  {
  }

  /** A completion ends the row and its ingestion without a trace of retries or errors. */
  ghost predicate Completes(s: State, now: int, c: Claim, t: State) {
    var k := c.Key();
    && k in s.rows && c.job in s.jobs && c.session in s.ingestions && WritesOnly(s, k, t) && t.gate == s.gate
    && t.rows[k] == s.rows[k].(status := Completed, completedAt := Some(now), heartbeatAt := None, nextRetryAt := None,
                               lastError := None)
    && t.jobs[c.job] == s.jobs[c.job].(heartbeatAt := Some(now))
    && t.ingestions[c.session] == s.ingestions[c.session].(status := Completed, completedAt := Some(now),
                                                           heartbeatAt := None, nextRetryAt := None, lastError := None)
  }

  lemma CompletionCompletes(s: State, now: int, c: Claim)
    ensures Owns(s, c) ==> Completes(s, now, c, CompleteStep(s, now, c))
    ensures !Owns(s, c) ==> NothingWritten(s, CompleteStep(s, now, c))
  {
  }

  // ---------------------------------------------------------------- failure

  /** What a failed claim leaves behind, by kind of failure. */
  ghost predicate EndsAs(settings: Settings, now: int, c: Claim, failure: Failure, jitter: real, row: JobSession) {
    match failure
    case Terminal(_) => row.status == Failed && row.nextRetryAt == None
    case Retryable(_) =>
      if c.jobAttempt < settings.maxAttempts then
        row.status == Pending && row.nextRetryAt.Some?
        && RetryInstant(settings, now, c.jobAttempt, jitter, row.nextRetryAt.value)
      else row.status == Failed && row.nextRetryAt == None
    case BudgetExhausted(_, retryAt) => row.status == Pending && row.nextRetryAt == Some(retryAt)
    case RateLimited(_) =>
      row.status == Pending && row.nextRetryAt == Some(now + settings.rateLimitCooldown * SECOND)
  }

  /** Upstream must rest: the gate closes until the retry unless it is closed for longer, and says why. */
  ghost predicate GateAfter(s: State, failure: Failure, row: JobSession, t: State) {
    if failure.BudgetExhausted? || failure.RateLimited? then
      && row.nextRetryAt.Some?
      && t.gate.reason == (if failure.BudgetExhausted? then Budget else RateLimit)
      && s.gate.nextRequestAt <= t.gate.nextRequestAt && row.nextRetryAt.value <= t.gate.nextRequestAt
      && (t.gate.nextRequestAt == s.gate.nextRequestAt || t.gate.nextRequestAt == row.nextRetryAt.value)
    else t.gate == s.gate
  }

  /** An owned failure: the row and its ingestion end alike, a pausing failure gives its attempt back. */
  ghost predicate FailsAs(settings: Settings, s: State, now: int, c: Claim, failure: Failure, jitter: real, t: State) {
    var k := c.Key();
    && WritesOnly(s, k, t) && t.jobs == s.jobs
    && EndsAs(settings, now, c, failure, jitter, t.rows[k])
    && Leaves(s, k, t.rows[k].status, t.rows[k].nextRetryAt, ArchiveFailure(failure.code),
              if failure.BudgetExhausted? || failure.RateLimited? then c.jobAttempt - 1 else c.jobAttempt, t)
    && GateAfter(s, failure, t.rows[k], t)
  }

  /** Every owned failure has the effect of its kind, and a failure without ownership has none. */
  lemma FailureFails(settings: Settings, s: State, now: int, c: Claim, failure: Failure, jitter: real)
    requires settings.Valid() && Inv(settings, s) && 0.0 <= jitter <= 1.0
    ensures var t := FailStep(settings, s, now, c, failure, jitter);
            && (Owns(s, c) ==> FailsAs(settings, s, now, c, failure, jitter, t))
            && (!Owns(s, c) ==> NothingWritten(s, t))
  {
    if Owns(s, c) && failure.Retryable? && c.jobAttempt < settings.maxAttempts {
      ScheduleIsRetryInstant(settings, now, c.jobAttempt, jitter);
    }
    if Owns(s, c) {
      assert s.jobs == s.jobs[c.job := s.jobs[c.job]];
    }
  }

  // ---------------------------------------------------------------- recovery

  /** A running row of a running job that has not been beaten for longer than the lease. */
  ghost predicate Expired(settings: Settings, s: State, now: int, k: RowKey) {
    && k in s.rows && k.job in s.jobs && s.rows[k].status == Running && s.jobs[k.job].status == Running
    && s.rows[k].heartbeatAt.Some?
    && s.rows[k].heartbeatAt.value < now - settings.leaseTimeout * SECOND
  }

  /** A recovered row is queued for a retry if it has attempts left, and has failed otherwise. */
  ghost predicate ReleasedLease(settings: Settings, s: State, now: int, k: RowKey, jitter: real, t: State) {
    && k in s.rows && k in t.rows
    && Leaves(s, k, t.rows[k].status, t.rows[k].nextRetryAt, WorkerLeaseExpired, s.rows[k].attemptCount, t)
    && (if s.rows[k].attemptCount < settings.maxAttempts then
          t.rows[k].status == Pending && t.rows[k].nextRetryAt.Some?
          && RetryInstant(settings, now, s.rows[k].attemptCount, jitter, t.rows[k].nextRetryAt.value)
        else t.rows[k].status == Failed && t.rows[k].nextRetryAt == None)
  }

  ghost predicate SessionAmong(keys: seq<RowKey>, session: SessionId) {
    exists i :: 0 <= i < |keys| && keys[i].session == session
  }

  ghost predicate JobAmong(keys: seq<RowKey>, job: JobId) {
    exists i :: 0 <= i < |keys| && keys[i].job == job
  }

  /** Exactly these leases are released, each with its own jitter, and their jobs beaten. */
  ghost predicate ReleasesExpired(settings: Settings, s: State, now: int, keys: seq<RowKey>, jitters: seq<real>,
                                  t: State)
    requires |jitters| == |keys|
  {
    && t.races == s.races && t.gate == s.gate && t.ledger == s.ledger
    && t.rows.Keys == s.rows.Keys && t.jobs.Keys == s.jobs.Keys && t.ingestions.Keys == s.ingestions.Keys
    && (forall i :: 0 <= i < |keys| ==> ReleasedLease(settings, s, now, keys[i], jitters[i], t))
    && (forall k :: k in s.rows && k !in keys ==> t.rows[k] == s.rows[k])
    && (forall i :: i in s.ingestions && !SessionAmong(keys, i) ==> t.ingestions[i] == s.ingestions[i])
    && (forall j :: j in s.jobs ==>
          t.jobs[j] == if JobAmong(keys, j) then s.jobs[j].(heartbeatAt := Some(now)) else s.jobs[j])
  }

  /** The chosen leases: expired, each once, the longest unbeaten first, and no more than a batch of them. */
  ghost predicate LongestUnbeaten(settings: Settings, s: State, now: int, batch: nat, keys: seq<RowKey>) {
    && |keys| <= batch
    && (forall i :: 0 <= i < |keys| ==> Expired(settings, s, now, keys[i]))
    && (forall i, j :: 0 <= i < j < |keys| ==>
          keys[i] != keys[j] && s.rows[keys[i]].heartbeatAt.value <= s.rows[keys[j]].heartbeatAt.value)
    && (forall k :: Expired(settings, s, now, k) && k !in keys ==>
          && |keys| == batch
          && forall i :: 0 <= i < |keys| ==> s.rows[keys[i]].heartbeatAt.value <= s.rows[k].heartbeatAt.value)
  }

  lemma BatchIsLongestUnbeaten(settings: Settings, s: State, now: int, batch: nat, keys: seq<RowKey>)
    requires IsStaleBatch(settings, s, now, batch, keys)
    ensures LongestUnbeaten(settings, s, now, batch, keys)
  {
    forall k | Expired(settings, s, now, k) ensures StaleRow(settings, s, now, k) {
    }
  }

  lemma RecoveredRow(settings: Settings, s: State, now: int, k: RowKey, jitter: real)
    requires settings.Valid() && Inv(settings, s) && StaleRow(settings, s, now, k) && 0.0 <= jitter <= 1.0
    ensures var t := RecoverRow(settings, s, now, k, jitter);
            && ReleasedLease(settings, s, now, k, jitter, t) && WritesOnly(s, k, t) && t.gate == s.gate
            && t.jobs[k.job] == s.jobs[k.job].(heartbeatAt := Some(now))
  {
    StaleRowIsRecoverable(settings, s, now, k);
    if s.rows[k].attemptCount < settings.maxAttempts {
      ScheduleIsRetryInstant(settings, now, s.rows[k].attemptCount, jitter);
    }
  }

  /** Recovering one more lease of another session leaves the earlier releases as they are. */
  lemma RecoversOneMore(settings: Settings, s: State, now: int, keys: seq<RowKey>, jitters: seq<real>, mid: State,
                        k: RowKey, jitter: real, t: State)
    requires |jitters| == |keys| && ReleasesExpired(settings, s, now, keys, jitters, mid)
    requires k in s.rows && k.job in s.jobs && k.session in s.ingestions && k !in keys && !SessionAmong(keys, k.session)
    requires ReleasedLease(settings, mid, now, k, jitter, t) && WritesOnly(mid, k, t) && t.gate == mid.gate
    requires t.jobs[k.job] == mid.jobs[k.job].(heartbeatAt := Some(now))
    ensures ReleasesExpired(settings, s, now, keys + [k], jitters + [jitter], t)
  {
    var more, all := keys + [k], jitters + [jitter];
    forall i | 0 <= i < |more| ensures ReleasedLease(settings, s, now, more[i], all[i], t) {
      if i < |keys| {
        assert ReleasedLease(settings, s, now, keys[i], jitters[i], mid);
        assert keys[i] in keys && keys[i].session != k.session;
      }
    }
    OneMoreAmong(keys, k);
  }

  lemma OneMoreAmong(keys: seq<RowKey>, k: RowKey)
    ensures forall session :: SessionAmong(keys + [k], session) <==> SessionAmong(keys, session) || session == k.session
    ensures forall job :: JobAmong(keys + [k], job) <==> JobAmong(keys, job) || job == k.job
    ensures forall key :: key in keys + [k] <==> key in keys || key == k
  {
    var more := keys + [k];
    assert more[|keys|] == k;
    forall session ensures SessionAmong(more, session) <==> SessionAmong(keys, session) || session == k.session {
      if i :| 0 <= i < |keys| && keys[i].session == session {
        assert more[i].session == session;
      }
    }
    forall job ensures JobAmong(more, job) <==> JobAmong(keys, job) || job == k.job {
      if i :| 0 <= i < |keys| && keys[i].job == job {
        assert more[i].job == job;
      }
    }
  }

  lemma LaterLeaseIsUntouched(settings: Settings, s: State, now: int, keys: seq<RowKey>, jitters: seq<real>, mid: State,
                              k: RowKey)
    requires Inv(settings, s) && |jitters| == |keys| && ReleasesExpired(settings, s, now, keys, jitters, mid)
    requires forall i :: 0 <= i < |keys| ==> StaleRow(settings, s, now, keys[i]) && keys[i] != k
    requires StaleRow(settings, s, now, k)
    ensures StaleRow(settings, mid, now, k) && !SessionAmong(keys, k.session)
  {
    if i :| 0 <= i < |keys| && keys[i].session == k.session {
      AtMostOneActiveRow(settings, s, keys[i], k);
    }
  }

  ghost predicate DistinctStale(settings: Settings, s: State, now: int, keys: seq<RowKey>) {
    && (forall i :: 0 <= i < |keys| ==> StaleRow(settings, s, now, keys[i]))
    && (forall i, j :: 0 <= i < j < |keys| ==> keys[i] != keys[j])
  }

  lemma RecoverNext(settings: Settings, s: State, now: int, keys: seq<RowKey>, jitters: seq<real>, mid: State,
                    k: RowKey,
                    jitter: real)
    requires settings.Valid() && Inv(settings, s) && Inv(settings, mid) && |jitters| == |keys| && 0.0 <= jitter <= 1.0
    requires DistinctStale(settings, s, now, keys + [k]) && ReleasesExpired(settings, s, now, keys, jitters, mid)
    ensures ReleasesExpired(settings, s, now, keys + [k], jitters + [jitter], RecoverRow(settings, mid, now, k, jitter))
  {
    var more := keys + [k];
    assert more[|keys|] == k;
    forall i | 0 <= i < |keys| ensures StaleRow(settings, s, now, keys[i]) && keys[i] != k {
      assert more[i] == keys[i];
    }
    LaterLeaseIsUntouched(settings, s, now, keys, jitters, mid, k);
    RecoveredRow(settings, mid, now, k, jitter);
    RecoversOneMore(settings, s, now, keys, jitters, mid, k, jitter, RecoverRow(settings, mid, now, k, jitter));
  }

  lemma PrefixOfBatch(settings: Settings, s: State, now: int, front: seq<RowKey>, k: RowKey)
    requires DistinctStale(settings, s, now, front + [k])
    ensures DistinctStale(settings, s, now, front)
  {
    var more := front + [k];
    forall i | 0 <= i < |front| ensures StaleRow(settings, s, now, front[i]) {
      assert more[i] == front[i];
    }
    forall i, j | 0 <= i < j < |front| ensures front[i] != front[j] {
      assert more[i] == front[i] && more[j] == front[j];
    }
  }

  lemma RecoverOneMore(settings: Settings, s: State, now: int, front: seq<RowKey>, jitters: seq<real>, k: RowKey,
                       jitter: real)
    requires |jitters| == |front|
    ensures RecoverRows(settings, s, now, front + [k], jitters + [jitter])
            == RecoverRow(settings, RecoverRows(settings, s, now, front, jitters), now, k, jitter)
  {
    assert (front + [k])[..|front|] == front && (jitters + [jitter])[..|front|] == jitters;
  }

  /** Every recovery releases exactly the leases it chose. */
  lemma {:induction false} RecoveryRecovers(settings: Settings, s: State, now: int, keys: seq<RowKey>,
                                            jitters: seq<real>)
    requires settings.Valid() && Inv(settings, s) && |jitters| == |keys| && DistinctStale(settings, s, now, keys)
    requires forall i :: 0 <= i < |jitters| ==> 0.0 <= jitters[i] <= 1.0
    ensures ReleasesExpired(settings, s, now, keys, jitters, RecoverRows(settings, s, now, keys, jitters))
  {
    if keys == [] {
      NothingToRecover(settings, s, now, keys, jitters);
    } else {
      var front, k, early, jitter := keys[..|keys| - 1], keys[|keys| - 1], jitters[..|keys| - 1], jitters[|keys| - 1];
      assert front + [k] == keys && early + [jitter] == jitters;
      PrefixOfBatch(settings, s, now, front, k);
      RecoveryRecovers(settings, s, now, front, early);
      RecoverKeeps(settings, s, now, front, early);
      RecoverNext(settings, s, now, front, early, RecoverRows(settings, s, now, front, early), k, jitter);
      RecoverOneMore(settings, s, now, front, early, k, jitter);
    }
  }

  lemma NothingToRecover(settings: Settings, s: State, now: int, keys: seq<RowKey>, jitters: seq<real>)
    requires keys == [] && |jitters| == |keys|
    ensures ReleasesExpired(settings, s, now, keys, jitters, s)
  {
  }

  // ---------------------------------------------------------------- aggregation

  ghost predicate SomeRow(s: State, j: JobId, status: Status) {
    exists k :: k in s.rows && k.job == j && s.rows[k].status == status
  }

  /** Something has happened in this job already. */
  ghost predicate HasBegun(s: State, j: JobId)
    requires j in s.jobs
  {
    || s.jobs[j].status == Running || s.jobs[j].startedAt.Some?
    || SomeRow(s, j, Running) || SomeRow(s, j, Completed) || SomeRow(s, j, Failed)
    || exists k :: k in s.rows && k.job == j && 0 < s.rows[k].attemptCount
  }

  /** The status the rows call for: work left, or an end that one failed row spoils. */
  ghost predicate CallsFor(s: State, j: JobId, status: Status)
    requires j in s.jobs
  {
    match status
    case Pending => (SomeRow(s, j, Pending) || SomeRow(s, j, Running)) && !HasBegun(s, j)
    case Running => (SomeRow(s, j, Pending) || SomeRow(s, j, Running)) && HasBegun(s, j)
    case Failed => !SomeRow(s, j, Pending) && !SomeRow(s, j, Running) && SomeRow(s, j, Failed)
    case Completed => !SomeRow(s, j, Pending) && !SomeRow(s, j, Running) && !SomeRow(s, j, Failed)
  }

  /** A job that has begun has a start: the one it had, or the earliest of its rows, or now. */
  ghost predicate StartOf(was: Job, earliest: Option<int>, now: int, startedAt: Option<int>) {
    if was.startedAt.Some? then startedAt == was.startedAt
    else if earliest.Some? then startedAt == earliest
    else startedAt == Some(now)
  }

  /** The parent row after an aggregation, column by column. */
  ghost predicate Aggregated(s: State, now: int, j: JobId, earliest: Option<int>, job: Job)
    requires j in s.jobs
  {
    var was := s.jobs[j];
    && CallsFor(s, j, job.status) && job.season == was.season
    && (if job.status == Pending then job.startedAt == was.startedAt else StartOf(was, earliest, now, job.startedAt))
    && (if job.status == Pending || job.status == Running then
          job.heartbeatAt == was.heartbeatAt && job.completedAt == was.completedAt
        else
          && job.heartbeatAt == None
          && job.completedAt == if was.completedAt.Some? then was.completedAt else Some(now))
    && (if SomeRow(s, j, Failed) then job.lastError == Some(SessionIngestionFailed)
        else if job.status == Completed || was.lastError == Some(SessionIngestionFailed) then job.lastError == None
        else job.lastError == was.lastError)
  }

  /** Only the parent row is written, and a job that has ended is never written again. */
  ghost predicate Aggregates(s: State, now: int, j: JobId, earliest: Option<int>, t: State) {
    && j in s.jobs && j in t.jobs
    && t.races == s.races && t.rows == s.rows && t.ingestions == s.ingestions && t.gate == s.gate
    && t.ledger == s.ledger
    && t.jobs == s.jobs[j := t.jobs[j]]
    && (if s.jobs[j].status == Completed || s.jobs[j].status == Failed then t.jobs[j] == s.jobs[j]
        else Aggregated(s, now, j, earliest, t.jobs[j]))
  }

  lemma AggregationAggregates(settings: Settings, s: State, now: int, j: JobId, earliest: Option<int>)
    requires Inv(settings, s) && j in s.jobs
    ensures Aggregates(s, now, j, earliest, AggregateStep(s, now, j, earliest))
  {
    var k :| k in s.rows && k.job == j;
    assert forall status :: SomeRow(s, j, status) <==> HasRow(s, j, status);
    assert s.rows[k].status == Pending || s.rows[k].status == Running || s.rows[k].status == Completed
      || s.rows[k].status == Failed;
    assert SomeRow(s, j, s.rows[k].status);
    assert s.jobs == s.jobs[j := s.jobs[j]];
  }

  // ---------------------------------------------------------------- planning

  /** A session the planner wants: on the calendar, ours, due, and free unless it extends a job. */
  ghost predicate Wanted(settings: Settings, s: State, now: int, calendar: seq<SessionId>, extending: bool,
                   session: SessionId) {
    && session in calendar && session in s.races && s.races[session].scheduledEnd.Some?
    && (session in s.ingestions ==> s.ingestions[session].source == FastF1Archive)
    && (extending || !Busy(s, session))
    && Freshness.Due(s.races[session].scheduledEnd.value,
                     if session in s.ingestions then s.ingestions[session].completedAt else None, now, settings)
  }

  ghost predicate Busy(s: State, session: SessionId) {
    session in s.ingestions && (s.ingestions[session].status == Pending || s.ingestions[session].status == Running)
  }

  /** The active job is extended, or one is opened if anything is wanted: new pending rows and nothing else. */
  ghost predicate Plans(settings: Settings, s: State, now: int, season: int, calendar: seq<SessionId>,
                        active: Option<JobId>, freshId: JobId, t: State) {
    var job := if active.Some? then active.value else freshId;
    && t.races == s.races && t.ingestions == s.ingestions && t.gate == s.gate && t.ledger == s.ledger
    && (if active.None? && (forall session :: !Wanted(settings, s, now, calendar, false, session)) then
          t.jobs == s.jobs && t.rows == s.rows
        else
          && t.jobs == (if active.Some? then s.jobs else s.jobs[job := Job(season, Pending, None, None, None, None)])
          && s.rows.Keys <= t.rows.Keys
          && (forall k :: k in s.rows ==> t.rows[k] == s.rows[k])
          && (forall k :: k in t.rows && k !in s.rows <==>
                k !in s.rows && k.job == job && !Busy(s, k.session)
                && Wanted(settings, s, now, calendar, active.Some?, k.session))
          && (forall k :: k in t.rows && k !in s.rows ==>
                t.rows[k] == JobSession(Pending, 0, now, None, None, None, None, None)))
  }

  lemma PlanningPlans(settings: Settings, s: State, now: int, season: int, calendar: seq<SessionId>,
                      active: Option<JobId>, freshId: JobId)
    requires Inv(settings, s) && s.clock <= now && CalendarRows(s, season, calendar)
    ensures Plans(settings, s, now, season, calendar, active, freshId,
                  PlanStep(settings, s, now, season, calendar, active, freshId))
  {
    EligibleSessionsMeaning(settings, s, now, season, calendar, active.Some?);
    var eligible := EligibleSessions(settings, s, now, calendar, active.Some?).value;
    forall session ensures session in eligible <==> Wanted(settings, s, now, calendar, active.Some?, session) {
    }
    QueueRowsMeaning(s, now, active.GetOr(freshId), eligible);
    if eligible != [] {
      assert eligible[0] in eligible;
    }
  }

  // ---------------------------------------------------------------- the request budget

  /** The requests that still count at `now`. */
  ghost function Counted(settings: Settings, s: State, now: int): set<nat> {
    set i: nat | i < |s.ledger| && now - settings.requestWindow * SECOND <= s.ledger[i].requestedAt
  }

  ghost predicate GateHolds(s: State, now: int) {
    s.gate.reason != Pacing && now < s.gate.nextRequestAt
  }

  /** The promise of a refusal on count: a window after the oldest request that still counts. */
  ghost predicate OldestLeaves(settings: Settings, s: State, now: int, retryAt: int) {
    && (exists i :: i in Counted(settings, s, now)
                    && retryAt == s.ledger[i].requestedAt + settings.requestWindow * SECOND)
    && forall i :: i in Counted(settings, s, now) ==>
         retryAt <= s.ledger[i].requestedAt + settings.requestWindow * SECOND
  }

  /** Exactly the events of the last 24 hours are kept, as often as they were there, and the new one is added. */
  ghost predicate Remembers(was: seq<RequestEvent>, now: int, operation: Operation, ledger: seq<RequestEvent>) {
    forall e :: multiset(ledger)[e]
                == (if now - 24 * 60 * 60 * SECOND <= e.requestedAt then multiset(was)[e] else 0)
                   + if e == RequestEvent(operation, now) then 1 else 0
  }

  /** One reservation: refused by the gate, refused on count, or granted; and what each of them writes. */
  ghost predicate Reserves(settings: Settings, s: State, now: int, operation: Operation, refused: Option<int>,
                           t: State) {
    && t.races == s.races && t.jobs == s.jobs && t.rows == s.rows && t.ingestions == s.ingestions
    && (if GateHolds(s, now) then
          refused == Some(s.gate.nextRequestAt) && t.gate == s.gate && t.ledger == s.ledger
        else if settings.requestOperationalCeiling <= |Counted(settings, s, now)| then
          && refused.Some? && OldestLeaves(settings, s, now, refused.value) && t.ledger == s.ledger
          && t.gate.reason == Budget
          && t.gate.nextRequestAt
             == if s.gate.nextRequestAt < refused.value then refused.value else s.gate.nextRequestAt
        else
          && refused == None && Remembers(s.ledger, now, operation, t.ledger)
          && t.gate == if s.gate.reason == Budget then Gate(now, Pacing) else s.gate)
  }

  lemma {:induction false} CountSinceCounts(settings: Settings, s: State, now: int)
    ensures CountSince(s.ledger, now - settings.Window()) == |Counted(settings, s, now)|
    decreases |s.ledger|
  {
    var counted := Counted(settings, s, now);
    if s.ledger == [] {
      assert counted == {};
    } else {
      var n := |s.ledger| - 1;
      var shorter := s.(ledger := s.ledger[..n]);
      CountSinceCounts(settings, shorter, now);
      assert Counted(settings, shorter, now) == counted - {n};
    }
  }

  lemma {:induction false} OldestSinceIsOldest(ledger: seq<RequestEvent>, cutoff: int)
    ensures var r := OldestSince(ledger, cutoff);
            && (r.None? <==> forall i :: 0 <= i < |ledger| ==> ledger[i].requestedAt < cutoff)
            && (r.Some? ==> exists i :: 0 <= i < |ledger| && cutoff <= ledger[i].requestedAt == r.value)
            && (r.Some? ==> forall i :: 0 <= i < |ledger| && cutoff <= ledger[i].requestedAt ==>
                  r.value <= ledger[i].requestedAt)
  {
    if ledger != [] {
      var n := |ledger| - 1;
      OldestSinceIsOldest(ledger[..n], cutoff);
      var earlier := OldestSince(ledger[..n], cutoff);
      if earlier.Some? {
        var i :| 0 <= i < n && cutoff <= ledger[..n][i].requestedAt == earlier.value;
        assert ledger[i].requestedAt == earlier.value;
      }
      forall i | 0 <= i < n ensures ledger[..n][i] == ledger[i] {
      }
    }
  }

  lemma {:induction false} KeepSinceKeeps(ledger: seq<RequestEvent>, cutoff: int, e: RequestEvent)
    ensures multiset(KeepSince(ledger, cutoff))[e] == if cutoff <= e.requestedAt then multiset(ledger)[e] else 0
  {
    if ledger != [] {
      var n := |ledger| - 1;
      KeepSinceKeeps(ledger[..n], cutoff, e);
      assert ledger == ledger[..n] + [ledger[n]];
    }
  }

  lemma PruningRemembers(was: seq<RequestEvent>, now: int, operation: Operation)
    ensures Remembers(was, now, operation, KeepSince(was + [RequestEvent(operation, now)], now - EVENT_RETENTION))
  {
    var grown := was + [RequestEvent(operation, now)];
    forall e ensures multiset(KeepSince(grown, now - EVENT_RETENTION))[e]
        == (if now - EVENT_RETENTION <= e.requestedAt then multiset(was)[e] else 0)
           + if e == RequestEvent(operation, now) then 1 else 0
    {
      KeepSinceKeeps(grown, now - EVENT_RETENTION, e);
    }
  }

  lemma RefusalNamesOldest(settings: Settings, s: State, now: int)
    requires settings.Valid() && !GateHolds(s, now)
    ensures Refusal(settings, s, now).Some? <==> settings.requestOperationalCeiling <= |Counted(settings, s, now)|
    ensures Refusal(settings, s, now).Some? ==> OldestLeaves(settings, s, now, Refusal(settings, s, now).value)
  {
    CountSinceCounts(settings, s, now);
    OldestSinceIsOldest(s.ledger, now - settings.Window());
    var counted := Counted(settings, s, now);
    if settings.requestOperationalCeiling <= |counted| {
      var i :| i in counted;
      var oldest := OldestSince(s.ledger, now - settings.Window());
      var j :| 0 <= j < |s.ledger| && now - settings.Window() <= s.ledger[j].requestedAt == oldest.value;
      assert j in counted;
    }
  }

  /** Every reservation is refused or granted as the gate and the window say. */
  lemma ReservationReserves(settings: Settings, s: State, now: int, operation: Operation)
    requires settings.Valid()
    ensures Reserves(settings, s, now, operation, Refusal(settings, s, now), ReserveStep(settings, s, now, operation))
  {
    if !GateHolds(s, now) {
      RefusalNamesOldest(settings, s, now);
      PruningRemembers(s.ledger, now, operation);
    }
  }

  // ---------------------------------------------------------------- every transaction

  /** The effect of one transaction, whichever it is. */
  ghost predicate HasEffect(settings: Settings, s: State, a: Action, t: State) {
    && t.clock == a.now
    && match a
       case Plan(now, season, calendar, active, freshId) =>
         Plans(settings, s, now, season, calendar, active, freshId, t)
       case ClaimNext(now, outcome) =>
         if outcome.Claimed? then Starts(settings, s, now, outcome.claim, t) else NothingWritten(s, t)
       case Heartbeat(now, claim) => if Owns(s, claim) then Beats(s, now, claim, t) else NothingWritten(s, t)
       case Fail(now, claim, failure, jitter) =>
         if Owns(s, claim) then FailsAs(settings, s, now, claim, failure, jitter, t) else NothingWritten(s, t)
       case Recover(now, batch, keys, jitters) =>
         && |jitters| == |keys| && LongestUnbeaten(settings, s, now, batch, keys)
         && ReleasesExpired(settings, s, now, keys, jitters, t)
       case Complete(now, claim) => if Owns(s, claim) then Completes(s, now, claim, t) else NothingWritten(s, t)
       case Aggregate(now, job, earliest) => Aggregates(s, now, job, earliest, t)
       case Reserve(now, operation) => Reserves(settings, s, now, operation, Refusal(settings, s, now), t)
       case Refresh(now, season, races) =>
         t.races == races && t.jobs == s.jobs && t.rows == s.rows && t.ingestions == s.ingestions && t.gate == s.gate
         && t.ledger == s.ledger
  }

  lemma RecoveryHasItsEffect(settings: Settings, s: State, a: Action, t: State)
    requires settings.Valid() && Inv(settings, s) && Next(settings, s, a, t) && a.Recover?
    ensures HasEffect(settings, s, a, t)
  {
    BatchIsLongestUnbeaten(settings, s, a.now, a.batch, a.keys);
    RecoveryRecovers(settings, s, a.now, a.keys, a.jitters);
    TickRecovers(settings, s, a.now, a.keys, a.jitters, RecoverRows(settings, s, a.now, a.keys, a.jitters));
  }

  lemma TickRecovers(settings: Settings, s: State, now: int, keys: seq<RowKey>, jitters: seq<real>, t: State)
    requires |jitters| == |keys| && ReleasesExpired(settings, s, now, keys, jitters, t)
    ensures ReleasesExpired(settings, s, now, keys, jitters, Tick(t, now))
  {
    forall i | 0 <= i < |keys| ensures ReleasedLease(settings, s, now, keys[i], jitters[i], Tick(t, now)) {
      assert ReleasedLease(settings, s, now, keys[i], jitters[i], t);
    }
  }

  /** Main result: every transaction of a run writes what it is meant to write, and nothing else. */
  lemma EveryStepHasItsEffect(settings: Settings, s: State, a: Action, t: State)
    requires settings.Valid() && Inv(settings, s) && Next(settings, s, a, t)
    ensures HasEffect(settings, s, a, t)
  {
    match a
    case Plan(now, season, calendar, active, freshId) =>
      PlanningPlans(settings, s, now, season, calendar, active, freshId);
    case ClaimNext(now, outcome) => ClaimsStart(settings, s, now, outcome, t);
    case Heartbeat(now, claim) => HeartbeatBeats(s, now, claim);
    case Fail(now, claim, failure, jitter) => FailureFails(settings, s, now, claim, failure, jitter);
    case Recover(now, batch, keys, jitters) => RecoveryHasItsEffect(settings, s, a, t);
    case Complete(now, claim) => CompletionCompletes(s, now, claim);
    case Aggregate(now, job, earliest) => AggregationAggregates(settings, s, now, job, earliest);
    case Reserve(now, operation) => ReservationReserves(settings, s, now, operation);
    case Refresh(now, season, races) =>
  }
}
