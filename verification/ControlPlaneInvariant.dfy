/**
 The control-plane invariant, kept by every transaction: running rows, running ingestions and running jobs
 agree, no session is queued twice, terminal jobs have no work left, and no job is empty.
 */
module ControlPlaneInvariant {
  import opened Wrappers
  import opened RuntimePolicy
  import opened ControlPlane
  import Freshness = FreshnessPolicy

  ghost predicate RowsWellPlaced(s: State) {
    forall k :: k in s.rows ==>
      k.job in s.jobs && k.session in s.races && s.races[k.session].season == s.jobs[k.job].season
  }

  /** The partial unique index on active jobs. */
  ghost predicate OneActiveJobPerSeason(s: State) {
    forall i, j :: i in s.jobs && j in s.jobs && s.jobs[i].status.Active() && s.jobs[j].status.Active() ==>
      s.jobs[i].season == s.jobs[j].season ==> i == j
  }

  ghost predicate TerminalJobsSettled(s: State) {
    forall k :: k in s.rows && s.rows[k].status.Active() ==> k.job in s.jobs && s.jobs[k.job].status.Active()
  }

  ghost predicate NoEmptyJob(s: State) {
    forall j :: j in s.jobs ==> exists k :: k in s.rows && k.job == j
  }

  /** A running row has a running job and a running archive ingestion with the same heartbeat. */
  ghost predicate RunningBacked(s: State) {
    forall k :: k in s.rows && s.rows[k].status == Running ==>
      && k.job in s.jobs && s.jobs[k.job].status == Running
      && k.session in s.ingestions
      && s.ingestions[k.session].source == FastF1Archive
      && s.ingestions[k.session].status == Running
      && s.rows[k].heartbeatAt.Some?
      && s.rows[k].heartbeatAt == s.ingestions[k.session].heartbeatAt
      && s.rows[k].heartbeatAt.value <= s.clock
      && 1 <= s.ingestions[k.session].attemptCount
  }

  ghost predicate SessionHasRow(s: State, session: SessionId, status: Status) {
    exists k :: k in s.rows && k.session == session && s.rows[k].status == status
  }

  /** An archive ingestion in flight always has a row in the same state. */
  ghost predicate IngestionsBacked(s: State) {
    forall i :: i in s.ingestions && s.ingestions[i].source == FastF1Archive && s.ingestions[i].status.Active() ==>
      SessionHasRow(s, i, s.ingestions[i].status)
  }

  ghost predicate QueuedSessionsOurs(s: State) {
    forall k :: k in s.rows && s.rows[k].status.Active() ==> !ForeignIngestion(s, k.session)
  }

  ghost predicate AttemptsBounded(settings: Settings, s: State) {
    forall k :: k in s.rows ==>
      && 0 <= s.rows[k].attemptCount <= settings.maxAttempts
      && (s.rows[k].status == Pending ==> s.rows[k].attemptCount < settings.maxAttempts)
      && (s.rows[k].status == Running ==> 1 <= s.rows[k].attemptCount)
  }

  ghost predicate IngestionsSane(s: State) {
    forall i :: i in s.ingestions && s.ingestions[i].source == FastF1Archive ==>
      && 0 <= s.ingestions[i].attemptCount
      && (s.ingestions[i].completedAt.Some? ==> s.ingestions[i].completedAt.value <= s.clock)
  }

  ghost predicate Inv(settings: Settings, s: State) {
    && RowsWellPlaced(s)
    && OneActiveJobPerSeason(s)
    && TerminalJobsSettled(s)
    && NoEmptyJob(s)
    && RunningBacked(s)
    && IngestionsBacked(s)
    && QueuedSessionsOurs(s)
    && AttemptsBounded(settings, s)
    && IngestionsSane(s)
  }

  // ---------------------------------------------------------------- consequences

  /** No session has two pending or running rows, in any jobs. */
  lemma AtMostOneActiveRow(settings: Settings, s: State, a: RowKey, b: RowKey)
    requires Inv(settings, s)
    requires a in s.rows && b in s.rows && a.session == b.session
    requires s.rows[a].status.Active() && s.rows[b].status.Active()
    ensures a == b
  {
    assert s.jobs[a.job].season == s.jobs[b.job].season;
  }

  /** The one running row of a session: its job runs, and its heartbeat is the session's. */
  ghost predicate RunsAs(s: State, session: SessionId, k: RowKey)
    requires session in s.ingestions
  {
    && k in s.rows && k.session == session && s.rows[k].status == Running
    && k.job in s.jobs && s.jobs[k.job].status == Running
    && s.rows[k].heartbeatAt.Some? && s.rows[k].heartbeatAt == s.ingestions[session].heartbeatAt
    && forall other :: other in s.rows && other.session == session && s.rows[other].status == Running ==> other == k
  }

  /**
   A session's ingestion runs exactly when a row of it does; that row is the only one, in a running job, with the same
   heartbeat.
   */
  lemma RunningExactlyTogether(settings: Settings, s: State, session: SessionId)
    requires Inv(settings, s)
    ensures (session in s.ingestions && s.ingestions[session].source == FastF1Archive
             && s.ingestions[session].status == Running)
            <==> SessionHasRow(s, session, Running)
    ensures SessionHasRow(s, session, Running) ==> session in s.ingestions && exists k :: RunsAs(s, session, k)
  {
    if SessionHasRow(s, session, Running) {
      var k :| k in s.rows && k.session == session && s.rows[k].status == Running;
      forall other | other in s.rows && other.session == session && s.rows[other].status == Running ensures other == k {
        AtMostOneActiveRow(settings, s, other, k);
      }
      assert RunsAs(s, session, k);
    }
  }

  lemma NoRunningSessionIsPending(settings: Settings, s: State, k: RowKey)
    requires Inv(settings, s) && k in s.rows && s.rows[k].status == Pending
    ensures !(k.session in s.ingestions && s.ingestions[k.session].source == FastF1Archive
              && s.ingestions[k.session].status == Running)
  {
    if other :| other in s.rows && other.session == k.session && s.rows[other].status == Running {
      AtMostOneActiveRow(settings, s, k, other);
    }
  }

  /** The queue never hands out a session that is already running or belongs to another source. */
  lemma ClaimNeverConflicts(settings: Settings, s: State, now: int, outcome: ClaimOutcome, t: State)
    requires Inv(settings, s) && ClaimStep(settings, s, now, outcome, t)
    ensures outcome.NoWork? || outcome.Claimed?
  {
    if outcome.SourceConflict? || outcome.AlreadyRunning? {
      var k := outcome.key;
      assert s.rows[k].status.Active();
      if outcome.AlreadyRunning? {
        NoRunningSessionIsPending(settings, s, k);
      }
    }
  }

  /** Every row the recovery scan picks is recovered: its ingestion shares the expired heartbeat. */
  lemma StaleRowIsRecoverable(settings: Settings, s: State, now: int, k: RowKey)
    requires Inv(settings, s) && StaleRow(settings, s, now, k)
    ensures Recoverable(settings, s, now, k)
  {
  }

  // ---------------------------------------------------------------- preservation, one transaction at a time

  lemma InitEstablishes(settings: Settings, s: State)
    requires Init(s)
    ensures Inv(settings, s)
  {
  }

  /**
   What claim, heartbeat, failure, recovery and completion have in common: they rewrite one active row, its
   session's ingestion and its job, giving row and ingestion the same status.
   */
  ghost predicate Moves(settings: Settings, s: State, k: RowKey, t: State) {
    && k in s.rows && k.job in s.jobs && s.rows[k].status.Active()
    && k in t.rows && k.job in t.jobs && k.session in t.ingestions
    && t.races == s.races
    && t.rows == s.rows[k := t.rows[k]]
    && t.ingestions == s.ingestions[k.session := t.ingestions[k.session]]
    && t.jobs == s.jobs[k.job := t.jobs[k.job]]
    && s.clock <= t.clock
    && t.jobs[k.job].season == s.jobs[k.job].season
    && t.jobs[k.job].status == Running
    && GoodPair(settings, t.rows[k], t.ingestions[k.session], t.clock)
  }

  predicate GoodPair(settings: Settings, row: JobSession, ingestion: Ingestion, clock: int) {
    && ingestion.source == FastF1Archive
    && row.status == ingestion.status
    && 0 <= row.attemptCount <= settings.maxAttempts
    && 0 <= ingestion.attemptCount
    && (ingestion.completedAt.Some? ==> ingestion.completedAt.value <= clock)
    && (row.status == Pending ==> row.attemptCount < settings.maxAttempts)
    && (row.status == Running ==>
          && 1 <= row.attemptCount && 1 <= ingestion.attemptCount
          && row.heartbeatAt.Some? && row.heartbeatAt == ingestion.heartbeatAt && row.heartbeatAt.value <= clock)
  }

  lemma MoveKeepsJobs(settings: Settings, s: State, k: RowKey, t: State)
    requires Inv(settings, s) && Moves(settings, s, k, t)
    ensures RowsWellPlaced(t) && OneActiveJobPerSeason(t) && TerminalJobsSettled(t) && NoEmptyJob(t)
  {
    SameRowsKeepJobsFilled(s, t);
  }

  lemma MoveKeepsRunning(settings: Settings, s: State, k: RowKey, t: State)
    requires Inv(settings, s) && Moves(settings, s, k, t)
    ensures RunningBacked(t) && QueuedSessionsOurs(t)
  {
    forall r | r in t.rows && t.rows[r].status.Active() && r != k ensures r.session != k.session {
      if r.session == k.session {
        AtMostOneActiveRow(settings, s, r, k);
      }
    }
  }

  lemma MoveKeepsIngestions(settings: Settings, s: State, k: RowKey, t: State)
    requires Inv(settings, s) && Moves(settings, s, k, t)
    ensures IngestionsBacked(t)
  {
    forall i | i in t.ingestions && t.ingestions[i].source == FastF1Archive && t.ingestions[i].status.Active()
      ensures SessionHasRow(t, i, t.ingestions[i].status)
    {
      if i == k.session {
        assert t.rows[k].status == t.ingestions[i].status;
      } else {
        var r :| r in s.rows && r.session == i && s.rows[r].status == s.ingestions[i].status;
        assert r in t.rows && t.rows[r] == s.rows[r];
      }
    }
  }

  lemma MoveKeeps(settings: Settings, s: State, k: RowKey, t: State)
    requires Inv(settings, s) && Moves(settings, s, k, t)
    ensures Inv(settings, t)
  {
    MoveKeepsJobs(settings, s, k, t);
    MoveKeepsRunning(settings, s, k, t);
    MoveKeepsIngestions(settings, s, k, t);
  }

  lemma ClaimKeeps(settings: Settings, s: State, now: int, outcome: ClaimOutcome, t: State)
    requires settings.Valid() && Inv(settings, s) && s.clock <= now && ClaimStep(settings, s, now, outcome, t)
    ensures Inv(settings, t)
  {
    match outcome
    case Claimed(claim) => MoveKeeps(settings, s, claim.Key(), t);
    case _ => IgnoresGateAndTime(settings, s, t);
  }

  lemma HeartbeatKeeps(settings: Settings, s: State, now: int, c: Claim)
    requires Inv(settings, s) && s.clock <= now
    ensures Inv(settings, HeartbeatStep(s, now, c))
  {
    if Owns(s, c) {
      MoveKeeps(settings, s, c.Key(), HeartbeatStep(s, now, c));
    } else {
      IgnoresGateAndTime(settings, s, HeartbeatStep(s, now, c));
    }
  }

  lemma SameRowsKeepJobsFilled(s: State, t: State)
    requires NoEmptyJob(s) && s.rows.Keys <= t.rows.Keys && t.jobs.Keys <= s.jobs.Keys
    ensures NoEmptyJob(t)
  {
    forall j | j in t.jobs ensures exists r :: r in t.rows && r.job == j {
      var r :| r in s.rows && r.job == j;
      assert r in t.rows;
    }
  }

  lemma SameStatusKeepsBacking(s: State, t: State)
    requires IngestionsBacked(s) && s.rows.Keys <= t.rows.Keys
    requires forall k :: k in s.rows ==> t.rows[k].status == s.rows[k].status
    requires t.ingestions == s.ingestions
    ensures IngestionsBacked(t)
  {
    forall i | i in t.ingestions && t.ingestions[i].source == FastF1Archive && t.ingestions[i].status.Active()
      ensures SessionHasRow(t, i, t.ingestions[i].status)
    {
      var r :| r in s.rows && r.session == i && s.rows[r].status == s.ingestions[i].status;
      assert r in t.rows && t.rows[r].status == t.ingestions[i].status;
    }
  }

  /** The invariant reads neither the gate nor the ledger, and tolerates job fields other than season and status. */
  lemma IgnoresGateAndTime(settings: Settings, s: State, t: State)
    requires Inv(settings, s)
    requires t.races == s.races && t.rows == s.rows && t.ingestions == s.ingestions && s.clock <= t.clock
    requires t.jobs.Keys == s.jobs.Keys
    requires forall j :: j in s.jobs ==> t.jobs[j].season == s.jobs[j].season && t.jobs[j].status == s.jobs[j].status
    ensures Inv(settings, t)
  {
    SameRowsKeepJobsFilled(s, t);
    SameStatusKeepsBacking(s, t);
  }

  lemma FailKeeps(settings: Settings, s: State, now: int, c: Claim, failure: Failure, jitter: real)
    requires settings.Valid() && Inv(settings, s) && s.clock <= now && 0.0 <= jitter <= 1.0
    ensures Inv(settings, FailStep(settings, s, now, c, failure, jitter))
  {
    var t := FailStep(settings, s, now, c, failure, jitter);
    if Owns(s, c) {
      assert t.jobs == s.jobs[c.job := s.jobs[c.job]];
      MoveKeeps(settings, s, c.Key(), t);
    } else {
      IgnoresGateAndTime(settings, s, t);
    }
  }

  lemma CompleteKeeps(settings: Settings, s: State, now: int, c: Claim)
    requires Inv(settings, s) && s.clock <= now
    ensures Inv(settings, CompleteStep(s, now, c))
  {
    if Owns(s, c) {
      MoveKeeps(settings, s, c.Key(), CompleteStep(s, now, c));
    } else {
      IgnoresGateAndTime(settings, s, CompleteStep(s, now, c));
    }
  }

  /** Recovering one expired lease keeps the invariant and touches no other row, job, gate or request. */
  lemma RecoverRowKeeps(settings: Settings, s: State, now: int, k: RowKey, jitter: real)
    requires settings.Valid() && Inv(settings, s)
    requires k in s.rows && s.rows[k].status == Running
    ensures var t := RecoverRow(settings, s, now, k, jitter);
            && Inv(settings, t)
            && t == s.(jobs := t.jobs, rows := t.rows, ingestions := t.ingestions)
            && t.jobs.Keys == s.jobs.Keys
            && t.rows.Keys == s.rows.Keys
            && (forall r :: r in s.rows && r != k ==> t.rows[r] == s.rows[r])
  {
    if Recoverable(settings, s, now, k) {
      MoveKeeps(settings, s, k, RecoverRow(settings, s, now, k, jitter));
    }
  }

  lemma {:induction false} RecoverKeeps(settings: Settings, s: State, now: int, keys: seq<RowKey>, jitters: seq<real>)
    requires settings.Valid() && Inv(settings, s) && |jitters| == |keys|
    requires forall i :: 0 <= i < |keys| ==> keys[i] in s.rows && s.rows[keys[i]].status == Running
    requires forall i, j :: 0 <= i < j < |keys| ==> keys[i] != keys[j]
    ensures var t := RecoverRows(settings, s, now, keys, jitters);
            && Inv(settings, t)
            && t == s.(jobs := t.jobs, rows := t.rows, ingestions := t.ingestions)
            && t.jobs.Keys == s.jobs.Keys
            && t.rows.Keys == s.rows.Keys
            && (forall k :: k in s.rows && k !in keys ==> t.rows[k] == s.rows[k])
  {
    if keys != [] {
      var n := |keys| - 1;
      RecoverKeeps(settings, s, now, keys[..n], jitters[..n]);
      var mid := RecoverRows(settings, s, now, keys[..n], jitters[..n]);
      assert keys[n] !in keys[..n];
      assert forall k :: k in keys[..n] ==> k in keys;
      RecoverRowKeeps(settings, mid, now, keys[n], jitters[n]);
    }
  }

  lemma AggregateKeeps(settings: Settings, s: State, now: int, j: JobId, earliest: Option<int>)
    requires Inv(settings, s) && s.clock <= now && j in s.jobs
    ensures Inv(settings, AggregateStep(s, now, j, earliest))
  {
    var t := AggregateStep(s, now, j, earliest);
    if s.jobs[j].status.Active() {
      SameRowsKeepJobsFilled(s, t);
      SameStatusKeepsBacking(s, t);
      forall k | k in t.rows && t.rows[k].status.Active() ensures t.jobs[k.job].status.Active() {
        if k.job == j {
          assert HasActiveRow(s, j);
        }
      }
      forall k | k in t.rows && t.rows[k].status == Running ensures t.jobs[k.job].status == Running {
        if k.job == j {
          assert HasActiveRow(s, j);
        }
      }
    } else {
      IgnoresGateAndTime(settings, s, t);
    }
  }

  lemma SplitLast(calendar: seq<SessionId>)
    requires calendar != [] && forall i, j :: 0 <= i < j < |calendar| ==> calendar[i] != calendar[j]
    ensures var n := |calendar| - 1; calendar == calendar[..n] + [calendar[n]] && calendar[n] !in calendar[..n]
  {
  }

  /** Every session the planner calls eligible is due, ours, and on the calendar; the evaluation never raises. */
  lemma {:induction false} EligibleSessionsMeaning(settings: Settings, s: State, now: int, season: int,
                                                   calendar: seq<SessionId>, hasActiveJob: bool)
    requires Inv(settings, s) && s.clock <= now && CalendarRows(s, season, calendar)
    ensures var r := EligibleSessions(settings, s, now, calendar, hasActiveJob);
            && r.Ok?
            && (forall session :: session in r.value <==>
                  && session in calendar
                  && !ForeignIngestion(s, session)
                  && (hasActiveJob || !IngestionBusy(s, session))
                  && s.races[session].scheduledEnd.Some?
                  && Freshness.Due(s.races[session].scheduledEnd.value, CompletedAt(s, session), now, settings))
            && (forall i, j :: 0 <= i < j < |r.value| ==> r.value[i] != r.value[j])
  {
    if calendar != [] {
      var n := |calendar| - 1;
      var session := calendar[n];
      SplitLast(calendar);
      EligibleSessionsMeaning(settings, s, now, season, calendar[..n], hasActiveJob);
      if s.races[session].scheduledEnd.Some? && !ForeignIngestion(s, session) {
        Freshness.EligibleExactlyWhenDue(s.races[session].scheduledEnd.value, CompletedAt(s, session), now, settings);
      }
    }
  }

  lemma {:induction false} QueueRowsMeaning(s: State, now: int, job: JobId, eligible: seq<SessionId>)
    ensures var rows := QueueRows(s, now, job, eligible);
            && s.rows.Keys <= rows.Keys
            && (forall k :: k in s.rows ==> rows[k] == s.rows[k])
            && (forall k :: k in rows && k !in s.rows <==>
                  k.job == job && k.session in eligible && k !in s.rows && !IngestionBusy(s, k.session))
            && (forall k :: k in rows && k !in s.rows ==> rows[k] == QueuedRow(now))
  {
    if eligible != [] {
      var n := |eligible| - 1;
      QueueRowsMeaning(s, now, job, eligible[..n]);
      assert eligible[..n] + [eligible[n]] == eligible;
    }
  }

  /** Opening or extending one active job: new pending rows for due sessions that nobody is working on. */
  ghost predicate Extends(s: State, season: int, job: JobId, t: State) {
    && t.races == s.races && t.ingestions == s.ingestions && s.clock <= t.clock
    && job in t.jobs && t.jobs[job].season == season && t.jobs[job].status.Active()
    && t.jobs == s.jobs[job := t.jobs[job]]
    && (job in s.jobs ==> t.jobs == s.jobs)
    && (forall j :: j in s.jobs && j != job && s.jobs[j].season == season ==> !s.jobs[j].status.Active())
    && s.rows.Keys <= t.rows.Keys
    && (forall k :: k in s.rows ==> t.rows[k] == s.rows[k])
    && (forall k :: k in t.rows && k !in s.rows ==>
          && k.job == job && k.session in s.races && s.races[k.session].season == season
          && !ForeignIngestion(s, k.session) && t.rows[k].status == Pending && t.rows[k].attemptCount == 0)
    && exists k :: k in t.rows && k.job == job
  }

  lemma ExtendKeepsJobs(settings: Settings, s: State, season: int, job: JobId, t: State)
    requires Inv(settings, s) && Extends(s, season, job, t)
    ensures RowsWellPlaced(t) && OneActiveJobPerSeason(t) && TerminalJobsSettled(t)
  {
  }

  lemma ExtendKeepsJobsFilled(settings: Settings, s: State, season: int, job: JobId, t: State)
    requires Inv(settings, s) && Extends(s, season, job, t)
    ensures NoEmptyJob(t)
  {
    forall j | j in t.jobs ensures exists k :: k in t.rows && k.job == j {
      if j != job {
        var k :| k in s.rows && k.job == j;
        assert k in t.rows;
      }
    }
  }

  lemma ExtendKeepsRunning(settings: Settings, s: State, season: int, job: JobId, t: State)
    requires Inv(settings, s) && Extends(s, season, job, t)
    ensures RunningBacked(t)
  {
    forall k | k in t.rows && t.rows[k].status == Running ensures t.jobs[k.job] == s.jobs[k.job] {
      assert k in s.rows;
    }
  }

  lemma ExtendKeepsQueue(settings: Settings, s: State, season: int, job: JobId, t: State)
    requires settings.Valid() && Inv(settings, s) && Extends(s, season, job, t)
    ensures QueuedSessionsOurs(t) && AttemptsBounded(settings, t)
  {
  }

  lemma ExtendKeeps(settings: Settings, s: State, season: int, job: JobId, t: State)
    requires settings.Valid() && Inv(settings, s) && Extends(s, season, job, t)
    ensures Inv(settings, t)
  {
    ExtendKeepsJobs(settings, s, season, job, t);
    ExtendKeepsJobsFilled(settings, s, season, job, t);
    ExtendKeepsRunning(settings, s, season, job, t);
    ExtendKeepsQueue(settings, s, season, job, t);
    SameStatusKeepsBacking(s, t);
  }

  lemma PlanKeeps(settings: Settings, s: State, now: int, season: int, calendar: seq<SessionId>,
                  active: Option<JobId>, freshId: JobId)
    requires settings.Valid() && Inv(settings, s) && s.clock <= now
    requires CalendarRows(s, season, calendar) && IsActiveJob(s, season, active) && freshId !in s.jobs
    ensures Inv(settings, PlanStep(settings, s, now, season, calendar, active, freshId))
  {
    var t := PlanStep(settings, s, now, season, calendar, active, freshId);
    EligibleSessionsMeaning(settings, s, now, season, calendar, active.Some?);
    var eligible := EligibleSessions(settings, s, now, calendar, active.Some?).value;
    if active.None? && eligible == [] {
      IgnoresGateAndTime(settings, s, t);
    } else {
      var job := active.GetOr(freshId);
      QueueRowsMeaning(s, now, job, eligible);
      if active.Some? {
        var k :| k in s.rows && k.job == job;
        assert k in t.rows;
      } else {
        assert eligible[0] in eligible;
        assert RowKey(job, eligible[0]) !in s.rows;
        assert RowKey(job, eligible[0]) in t.rows;
      }
      ExtendKeeps(settings, s, season, job, t);
    }
  }

  /** The invariant reads no schedule, only which sessions there are and of which season. */
  lemma RefreshKeeps(settings: Settings, s: State, now: int, season: int, races: map<SessionId, Race>)
    requires Inv(settings, s) && s.clock <= now && RefreshesSeason(s.races, season, races)
    ensures Inv(settings, s.(races := races, clock := now))
  {
    var t := s.(races := races, clock := now);
    SameRowsKeepJobsFilled(s, t);
    SameStatusKeepsBacking(s, t);
  }

  lemma HolderKeeps(settings: Settings, s: State, a: Action, t: State)
    requires settings.Valid() && Inv(settings, s) && Next(settings, s, a, t)
    requires a.Heartbeat? || a.Fail? || a.Complete? || a.ClaimNext?
    ensures Inv(settings, t)
  {
    match a
    case ClaimNext(now, outcome) => ClaimKeeps(settings, s, now, outcome, t);
    case Heartbeat(now, claim) => HeartbeatKeeps(settings, s, now, claim);
    case Fail(now, claim, failure, jitter) => FailKeeps(settings, s, now, claim, failure, jitter);
    case Complete(now, claim) => CompleteKeeps(settings, s, now, claim);
  }

  /** Every transaction of every worker and API process keeps the invariant. */
  lemma NextKeeps(settings: Settings, s: State, a: Action, t: State)
    requires settings.Valid() && Inv(settings, s) && Next(settings, s, a, t)
    ensures Inv(settings, t)
  {
    match a
    case Plan(now, season, calendar, active, freshId) => PlanKeeps(settings, s, now, season, calendar, active, freshId);
    case Recover(now, batch, keys, jitters) =>
      RecoverKeeps(settings, s, now, keys, jitters);
      IgnoresGateAndTime(settings, RecoverRows(settings, s, now, keys, jitters), t);
    case Aggregate(now, job, earliest) => AggregateKeeps(settings, s, now, job, earliest);
    case Reserve(now, operation) => IgnoresGateAndTime(settings, s, t);
    case Refresh(now, season, races) => RefreshKeeps(settings, s, now, season, races);
    case _ => HolderKeeps(settings, s, a, t);
  }

  /** The invariant holds in every reachable state. */
  lemma {:induction false} Reachable(settings: Settings, states: seq<State>, trace: seq<Action>, n: nat)
    requires settings.Valid() && Run(settings, states, trace) && n < |states|
    ensures Inv(settings, states[n])
    decreases n
  {
    if n == 0 {
      InitEstablishes(settings, states[0]);
    } else {
      Reachable(settings, states, trace, n - 1);
      NextKeeps(settings, states[n - 1], trace[n - 1], states[n]);
    }
  }
}
