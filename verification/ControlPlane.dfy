/**
 The backfill control plane as a labelled transition system: jobs, job-sessions, session ingestions,
 the shared upstream gate and the request ledger, with one step per database transaction.
 */
module ControlPlane {
  import opened Wrappers
  import opened RuntimePolicy
  import Freshness = FreshnessPolicy

  type JobId = int
  type SessionId = int

  datatype Status = Pending | Running | Completed | Failed {
    predicate Active() { this == Pending || this == Running }
  }

  datatype Source = FastF1Archive | OtherSource

  datatype Diagnostic = WorkerLeaseExpired | SessionIngestionFailed | ArchiveFailure(code: string)

  /** A race session as the calendar describes it: a refresh may move its end, its season never changes. */
  datatype Race = Race(season: int, scheduledEnd: Option<int>)

  datatype Job = Job(
    season: int,
    status: Status,
    startedAt: Option<int>,
    heartbeatAt: Option<int>,
    completedAt: Option<int>,
    lastError: Option<Diagnostic>)

  datatype RowKey = RowKey(job: JobId, session: SessionId)

  datatype JobSession = JobSession(
    status: Status,
    attemptCount: int,
    queuedAt: int,
    startedAt: Option<int>,
    heartbeatAt: Option<int>,
    nextRetryAt: Option<int>,
    completedAt: Option<int>,
    lastError: Option<Diagnostic>)

  datatype Ingestion = Ingestion(
    status: Status,
    source: Source,
    attemptCount: int,
    firstStartedAt: Option<int>,
    lastStartedAt: Option<int>,
    heartbeatAt: Option<int>,
    nextRetryAt: Option<int>,
    completedAt: Option<int>,
    lastError: Option<Diagnostic>)

  datatype GateReason = Pacing | RateLimit | Budget

  datatype Gate = Gate(nextRequestAt: int, reason: GateReason)

  datatype Operation = Archive | Schedule | Telemetry

  datatype RequestEvent = RequestEvent(operation: Operation, requestedAt: int)

  /** All tables the control plane reads or writes, and the instant of the last transaction. */
  datatype State = State(
    races: map<SessionId, Race>,
    jobs: map<JobId, Job>,
    rows: map<RowKey, JobSession>,
    ingestions: map<SessionId, Ingestion>,
    gate: Gate,
    ledger: seq<RequestEvent>,
    clock: int)

  /** What a worker holds after a successful claim. */
  datatype Claim = Claim(job: JobId, session: SessionId, jobAttempt: int, token: int, claimedAt: int) {
    function Key(): RowKey { RowKey(job, session) }
  }

  function Tick(s: State, now: int): State {
    s.(clock := now)
  }

  // ---------------------------------------------------------------- claim

  predicate Claimable(settings: Settings, s: State, now: int, k: RowKey) {
    && k in s.rows
    && k.job in s.jobs
    && s.jobs[k.job].status.Active()
    && s.rows[k].status == Pending
    && s.rows[k].attemptCount < settings.maxAttempts
    && (s.rows[k].nextRetryAt.Some? ==> s.rows[k].nextRetryAt.value <= now)
  }

  /** The queue order: never-retried rows first, then by retry instant, queue instant, job and session. */
  predicate ClaimsBefore(rows: map<RowKey, JobSession>, a: RowKey, b: RowKey)
    requires a in rows && b in rows
  {
    var x, y := rows[a], rows[b];
    if x.nextRetryAt != y.nextRetryAt then
      x.nextRetryAt.None? || (y.nextRetryAt.Some? && x.nextRetryAt.value < y.nextRetryAt.value)
    else if x.queuedAt != y.queuedAt then x.queuedAt < y.queuedAt
    else if a.job != b.job then a.job < b.job
    else a.session < b.session
  }

  ghost predicate IsNextClaim(settings: Settings, s: State, now: int, k: RowKey) {
    && Claimable(settings, s, now, k)
    && forall other :: Claimable(settings, s, now, other) && other != k ==> ClaimsBefore(s.rows, k, other)
  }

  function NextToken(s: State, session: SessionId): int {
    if session in s.ingestions then s.ingestions[session].attemptCount + 1 else 1
  }

  function ClaimFor(s: State, now: int, k: RowKey): Claim
    requires k in s.rows
  {
    Claim(k.job, k.session, s.rows[k].attemptCount + 1, NextToken(s, k.session), now)
  }

  function StartedIngestion(s: State, now: int, session: SessionId): Ingestion {
    var token := NextToken(s, session);
    if session in s.ingestions then
      var i := s.ingestions[session];
      i.(status := Running, attemptCount := token, firstStartedAt := i.firstStartedAt.Or(Some(now)),
         lastStartedAt := Some(now), heartbeatAt := Some(now), nextRetryAt := None)
    else
      Ingestion(Running, FastF1Archive, token, Some(now), Some(now), Some(now), None, None, None)
  }

  function ClaimRow(settings: Settings, s: State, now: int, k: RowKey): State
    requires k in s.rows && k.job in s.jobs
  {
    var job, row := s.jobs[k.job], s.rows[k];
    s.(gate := Gate(now + settings.MinInterval(), Pacing),
       jobs := s.jobs[k.job :=
                      job.(status := Running, startedAt := job.startedAt.Or(Some(now)), heartbeatAt := Some(now))],
       rows := s.rows[k := row.(status := Running, attemptCount := row.attemptCount + 1, startedAt := Some(now),
                                heartbeatAt := Some(now), nextRetryAt := None, completedAt := None)],
       ingestions := s.ingestions[k.session := StartedIngestion(s, now, k.session)],
       clock := now)
  }

  datatype ClaimOutcome = NoWork | Claimed(claim: Claim) | SourceConflict(key: RowKey) | AlreadyRunning(key: RowKey)

  ghost predicate ClaimStep(settings: Settings, s: State, now: int, outcome: ClaimOutcome, t: State) {
    match outcome
    case NoWork =>
      && (now < s.gate.nextRequestAt || !exists k :: Claimable(settings, s, now, k))
      && t == Tick(s, now)
    case Claimed(claim) =>
      var k := claim.Key();
      && s.gate.nextRequestAt <= now
      && IsNextClaim(settings, s, now, k)
      && (k.session in s.ingestions ==>
            s.ingestions[k.session].source == FastF1Archive && s.ingestions[k.session].status != Running)
      && claim == ClaimFor(s, now, k)
      && t == ClaimRow(settings, s, now, k)
    case SourceConflict(k) =>
      && s.gate.nextRequestAt <= now
      && IsNextClaim(settings, s, now, k)
      && k.session in s.ingestions && s.ingestions[k.session].source != FastF1Archive
      && t == Tick(s, now)
    case AlreadyRunning(k) =>
      && s.gate.nextRequestAt <= now
      && IsNextClaim(settings, s, now, k)
      && k.session in s.ingestions && s.ingestions[k.session].source == FastF1Archive
      && s.ingestions[k.session].status == Running
      && t == Tick(s, now)
  }

  // ---------------------------------------------------------------- ownership, heartbeat, failure, completion

  /** The check that heartbeat, failure and completion all make before they write. */
  predicate Owns(s: State, c: Claim) {
    && c.Key() in s.rows
    && s.rows[c.Key()].status == Running
    && s.rows[c.Key()].attemptCount == c.jobAttempt
    && c.job in s.jobs
    && s.jobs[c.job].status == Running
    && c.session in s.ingestions
    && s.ingestions[c.session].source == FastF1Archive
    && s.ingestions[c.session].status == Running
    && s.ingestions[c.session].attemptCount == c.token
  }

  function HeartbeatStep(s: State, now: int, c: Claim): State {
    if !Owns(s, c) then Tick(s, now)
    else
      s.(jobs := s.jobs[c.job := s.jobs[c.job].(heartbeatAt := Some(now))],
         rows := s.rows[c.Key() := s.rows[c.Key()].(heartbeatAt := Some(now))],
         ingestions := s.ingestions[c.session := s.ingestions[c.session].(heartbeatAt := Some(now))],
         clock := now)
  }

  datatype Failure =
    | BudgetExhausted(code: string, retryAt: int)
    | RateLimited(code: string)
    | Retryable(code: string)
    | Terminal(code: string)
  {
    predicate Pauses() { BudgetExhausted? || RateLimited? }
  }

  /** Status and retry instant that one failed claim leaves behind. */
  function FailureVerdict(settings: Settings, now: int, c: Claim, failure: Failure, jitter: real)
      : (Status, Option<int>) {
    match failure
    case BudgetExhausted(_, retryAt) => (Pending, Some(retryAt))
    case RateLimited(_) => (Pending, Some(now + settings.Cooldown()))
    case Terminal(_) => (Failed, None)
    case Retryable(_) =>
      if c.jobAttempt < settings.maxAttempts then
        match CalculateRetrySchedule(now, c.jobAttempt, jitter, settings)
        case Ok(schedule) => (Pending, Some(schedule.nextRetryAt))
        case Err(_) => (Failed, None)
      else (Failed, None)
  }

  /** Leaves the running state on both the row and its session, with the same status, retry and diagnostic. */
  function Release(s: State, k: RowKey, status: Status, retryAt: Option<int>, error: Diagnostic, refund: int): State
    requires k in s.rows && k.session in s.ingestions
  {
    var row, ingestion := s.rows[k], s.ingestions[k.session];
    s.(rows := s.rows[k := row.(status := status, attemptCount := row.attemptCount - refund, heartbeatAt := None,
                                nextRetryAt := retryAt, lastError := Some(error))],
       ingestions := s.ingestions[k.session := ingestion.(status := status, heartbeatAt := None,
                                                          nextRetryAt := retryAt, lastError := Some(error))])
  }

  function FailStep(settings: Settings, s: State, now: int, c: Claim, failure: Failure, jitter: real): State {
    if !Owns(s, c) then Tick(s, now)
    else
      var (status, retryAt) := FailureVerdict(settings, now, c, failure, jitter);
      var gate := if failure.Pauses() && retryAt.Some? then
                    Gate(if s.gate.nextRequestAt < retryAt.value then retryAt.value else s.gate.nextRequestAt,
                         if failure.BudgetExhausted? then Budget else RateLimit)
                  else s.gate;
      Release(s, c.Key(), status, retryAt, ArchiveFailure(failure.code), if failure.Pauses() then 1 else 0)
        .(gate := gate, clock := now)
  }

  function CompleteStep(s: State, now: int, c: Claim): State {
    if !Owns(s, c) then Tick(s, now)
    else
      s.(jobs := s.jobs[c.job := s.jobs[c.job].(heartbeatAt := Some(now))],
         rows := s.rows[c.Key() := s.rows[c.Key()].(status := Completed, heartbeatAt := None, nextRetryAt := None,
                                                    completedAt := Some(now), lastError := None)],
         ingestions := s.ingestions[c.session := s.ingestions[c.session].(
                         status := Completed, completedAt := Some(now), heartbeatAt := None, nextRetryAt := None,
                         lastError := None)],
         clock := now)
  }

  // ---------------------------------------------------------------- recovery of expired leases

  predicate StaleRow(settings: Settings, s: State, now: int, k: RowKey) {
    && k in s.rows
    && k.job in s.jobs
    && s.jobs[k.job].status == Running
    && s.rows[k].status == Running
    && s.rows[k].heartbeatAt.Some?
    && s.rows[k].heartbeatAt.value < now - settings.LeaseTimeout()
  }

  predicate StalerThan(rows: map<RowKey, JobSession>, a: RowKey, b: RowKey)
    requires a in rows && b in rows
  {
    var x, y := rows[a].heartbeatAt, rows[b].heartbeatAt;
    if x != y then x.Some? && (y.None? || x.value < y.value)
    else if a.job != b.job then a.job < b.job
    else a.session < b.session
  }

  /** The oldest `batch` stale rows, oldest first. */
  ghost predicate IsStaleBatch(settings: Settings, s: State, now: int, batch: nat, keys: seq<RowKey>) {
    && |keys| <= batch
    && (forall i :: 0 <= i < |keys| ==> StaleRow(settings, s, now, keys[i]))
    && (forall i, j :: 0 <= i < j < |keys| ==> keys[i] != keys[j] && StalerThan(s.rows, keys[i], keys[j]))
    && (forall k :: StaleRow(settings, s, now, k) && k !in keys ==>
          |keys| == batch && forall i :: 0 <= i < |keys| ==> StalerThan(s.rows, keys[i], k))
  }

  /** The second look at a stale row, under the locks: its job and ingestion must still back the expired lease. */
  predicate Recoverable(settings: Settings, s: State, now: int, k: RowKey) {
    && k in s.rows
    && k.job in s.jobs
    && s.jobs[k.job].status == Running
    && k.session in s.ingestions
    && s.ingestions[k.session].source == FastF1Archive
    && s.ingestions[k.session].status == Running
    && 1 <= s.rows[k].attemptCount
    && s.ingestions[k.session].heartbeatAt.Some?
    && s.ingestions[k.session].heartbeatAt.value < now - settings.LeaseTimeout()
  }

  function RecoverRow(settings: Settings, s: State, now: int, k: RowKey, jitter: real): State {
    if !Recoverable(settings, s, now, k) then s
    else
      var (status, retryAt) :=
        match CalculateRetrySchedule(now, s.rows[k].attemptCount, jitter, settings)
        case Ok(schedule) => (Pending, Some(schedule.nextRetryAt))
        case Err(_) => (Failed, None);
      var released := Release(s, k, status, retryAt, WorkerLeaseExpired, 0);
      released.(jobs := s.jobs[k.job := s.jobs[k.job].(heartbeatAt := Some(now))])
  }

  function RecoverRows(settings: Settings, s: State, now: int, keys: seq<RowKey>, jitters: seq<real>): State
    requires |jitters| == |keys|
  {
    if keys == [] then s
    else
      var n := |keys| - 1;
      RecoverRow(settings, RecoverRows(settings, s, now, keys[..n], jitters[..n]), now, keys[n], jitters[n])
  }

  // ---------------------------------------------------------------- aggregation

  function RowsWith(s: State, job: JobId, status: Status): set<RowKey> {
    set k | k in s.rows && k.job == job && s.rows[k].status == status
  }

  predicate HasRow(s: State, job: JobId, status: Status) {
    exists k :: k in s.rows && k.job == job && s.rows[k].status == status
  }

  predicate HasActiveRow(s: State, job: JobId) {
    HasRow(s, job, Pending) || HasRow(s, job, Running)
  }

  /** The earliest start among a job's rows, if any of them has started. */
  ghost predicate IsEarliestStart(s: State, job: JobId, earliest: Option<int>) {
    match earliest
    case None => forall k :: k in s.rows && k.job == job ==> s.rows[k].startedAt.None?
    case Some(t) =>
      && (exists k :: k in s.rows && k.job == job && s.rows[k].startedAt == Some(t))
      && forall k :: k in s.rows && k.job == job && s.rows[k].startedAt.Some? ==> t <= s.rows[k].startedAt.value
  }

  function DeriveJobStatus(s: State, j: JobId): Status
    requires j in s.jobs
  {
    if !exists k :: k in s.rows && k.job == j then s.jobs[j].status
    else if HasActiveRow(s, j) then
      if || s.jobs[j].status == Running
         || s.jobs[j].startedAt.Some?
         || HasRow(s, j, Running)
         || HasRow(s, j, Completed)
         || HasRow(s, j, Failed)
         || (exists k :: k in s.rows && k.job == j && 0 < s.rows[k].attemptCount)
      then Running else Pending
    else if HasRow(s, j, Failed) then Failed
    else Completed
  }

  function AggregateStep(s: State, now: int, j: JobId, earliest: Option<int>): State
    requires j in s.jobs
  {
    var job := s.jobs[j];
    if !job.status.Active() then Tick(s, now)
    else
      var status := DeriveJobStatus(s, j);
      var ended := !status.Active();
      var error :=
        if HasRow(s, j, Failed) then Some(SessionIngestionFailed)
        else if status == Completed || job.lastError == Some(SessionIngestionFailed) then None
        else job.lastError;
      s.(jobs := s.jobs[j := job.(
           status := status,
           startedAt := if status == Pending then job.startedAt else job.startedAt.Or(earliest).Or(Some(now)),
           heartbeatAt := if ended then None else job.heartbeatAt,
           completedAt := if ended then job.completedAt.Or(Some(now)) else job.completedAt,
           lastError := error)],
         clock := now)
  }

  // ---------------------------------------------------------------- planning

  /** The season's current calendar rows: distinct sessions of that season. */
  predicate OnCalendar(races: map<SessionId, Race>, season: int, calendar: seq<SessionId>) {
    && (forall i :: 0 <= i < |calendar| ==> calendar[i] in races && races[calendar[i]].season == season)
    && (forall i, j :: 0 <= i < j < |calendar| ==> calendar[i] != calendar[j])
  }

  predicate CalendarRows(s: State, season: int, calendar: seq<SessionId>) {
    OnCalendar(s.races, season, calendar)
  }

  ghost predicate IsActiveJob(s: State, season: int, active: Option<JobId>) {
    match active
    case Some(j) => j in s.jobs && s.jobs[j].season == season && s.jobs[j].status.Active()
    case None => forall j :: j in s.jobs && s.jobs[j].season == season ==> !s.jobs[j].status.Active()
  }

  predicate IngestionBusy(s: State, session: SessionId) {
    session in s.ingestions && s.ingestions[session].status.Active()
  }

  predicate ForeignIngestion(s: State, session: SessionId) {
    session in s.ingestions && s.ingestions[session].source != FastF1Archive
  }

  function CompletedAt(s: State, session: SessionId): Option<int> {
    if session in s.ingestions then s.ingestions[session].completedAt else None
  }

  function EligibleSessions(settings: Settings, s: State, now: int, calendar: seq<SessionId>, hasActiveJob: bool)
    : (r: Result<seq<SessionId>, Freshness.FreshnessError>)
    requires forall i :: 0 <= i < |calendar| ==> calendar[i] in s.races
  {
    if calendar == [] then Ok([])
    else
      var n := |calendar| - 1;
      var session := calendar[n];
      match EligibleSessions(settings, s, now, calendar[..n], hasActiveJob)
      case Err(e) => Err(e)
      case Ok(earlier) =>
        if ForeignIngestion(s, session) || (!hasActiveJob && IngestionBusy(s, session)) then Ok(earlier)
        else
          match Freshness.EvaluateArchiveIngestion(s.races[session].scheduledEnd, CompletedAt(s, session), now,
                                                   settings)
          case Err(e) => Err(e)
          case Ok(verdict) => Ok(if verdict.eligible then earlier + [session] else earlier)
  }

  function QueuedRow(now: int): JobSession {
    JobSession(Pending, 0, now, None, None, None, None, None)
  }

  /** Adds a pending row for each eligible session that the job lacks and nobody is working on. */
  function QueueRows(s: State, now: int, job: JobId, eligible: seq<SessionId>): map<RowKey, JobSession> {
    if eligible == [] then s.rows
    else
      var n := |eligible| - 1;
      var rows := QueueRows(s, now, job, eligible[..n]);
      var k := RowKey(job, eligible[n]);
      if k in s.rows || IngestionBusy(s, eligible[n]) then rows else rows[k := QueuedRow(now)]
  }

  function PlanStep(settings: Settings, s: State, now: int, season: int, calendar: seq<SessionId>,
                    active: Option<JobId>, freshId: JobId): State
    requires forall i :: 0 <= i < |calendar| ==> calendar[i] in s.races
  {
    match EligibleSessions(settings, s, now, calendar, active.Some?)
    case Err(_) => Tick(s, now)
    case Ok(eligible) =>
      if active.None? && eligible == [] then Tick(s, now)
      else
        var job := active.GetOr(freshId);
        var jobs := if active.Some? then s.jobs else s.jobs[freshId := Job(season, Pending, None, None, None, None)];
        s.(jobs := jobs, rows := QueueRows(s, now, job, eligible), clock := now)
  }

  // ---------------------------------------------------------------- the calendar

  /** A stored schedule adds sessions to its season and may move ends within it; no session is ever deleted. */
  predicate RefreshesSeason(was: map<SessionId, Race>, season: int, races: map<SessionId, Race>) {
    && was.Keys <= races.Keys
    && (forall i :: i in was ==> races[i].season == was[i].season && (was[i].season != season ==> races[i] == was[i]))
    && (forall i :: i in races && i !in was ==> races[i].season == season)
  }

  // ---------------------------------------------------------------- the rolling request budget

  const EVENT_RETENTION := 24 * 60 * 60 * SECOND

  function CountSince(ledger: seq<RequestEvent>, cutoff: int): nat {
    if ledger == [] then 0
    else CountSince(ledger[..|ledger| - 1], cutoff) + if cutoff <= ledger[|ledger| - 1].requestedAt then 1 else 0
  }

  function KeepSince(ledger: seq<RequestEvent>, cutoff: int): seq<RequestEvent> {
    if ledger == [] then []
    else
      var last := ledger[|ledger| - 1];
      KeepSince(ledger[..|ledger| - 1], cutoff) + if cutoff <= last.requestedAt then [last] else []
  }

  /** The oldest request that still counts. */
  function OldestSince(ledger: seq<RequestEvent>, cutoff: int): Option<int> {
    if ledger == [] then None
    else
      var earlier := OldestSince(ledger[..|ledger| - 1], cutoff);
      var last := ledger[|ledger| - 1].requestedAt;
      if last < cutoff then earlier
      else if earlier.Some? && earlier.value <= last then earlier
      else Some(last)
  }

  /** Why a reservation at `now` is refused, and the instant it promises; None when it is granted. */
  function Refusal(settings: Settings, s: State, now: int): Option<int> {
    if s.gate.reason != Pacing && now < s.gate.nextRequestAt then Some(s.gate.nextRequestAt)
    else
      var cutoff := now - settings.Window();
      if CountSince(s.ledger, cutoff) < settings.requestOperationalCeiling then None
      else Some(OldestSince(s.ledger, cutoff).GetOr(now) + settings.Window())
  }

  function ReserveStep(settings: Settings, s: State, now: int, operation: Operation): State {
    if s.gate.reason != Pacing && now < s.gate.nextRequestAt then Tick(s, now)
    else
      match Refusal(settings, s, now)
      case Some(retryAt) =>
        s.(gate := Gate(if s.gate.nextRequestAt < retryAt then retryAt else s.gate.nextRequestAt, Budget), clock := now)
      case None =>
        s.(ledger := KeepSince(s.ledger + [RequestEvent(operation, now)], now - EVENT_RETENTION),
           gate := if s.gate.reason == Budget then Gate(now, Pacing) else s.gate,
           clock := now)
  }

  // ---------------------------------------------------------------- the transition relation

  datatype Action =
    | Plan(now: int, season: int, calendar: seq<SessionId>, active: Option<JobId>, freshId: JobId)
    | ClaimNext(now: int, outcome: ClaimOutcome)
    | Heartbeat(now: int, claim: Claim)
    | Fail(now: int, claim: Claim, failure: Failure, jitter: real)
    | Recover(now: int, batch: nat, keys: seq<RowKey>, jitters: seq<real>)
    | Complete(now: int, claim: Claim)
    | Aggregate(now: int, job: JobId, earliest: Option<int>)
    | Reserve(now: int, operation: Operation)
    | Refresh(now: int, season: int, races: map<SessionId, Race>)

  /** One transaction of any worker or API process takes `s` to `t`. */
  ghost predicate Next(settings: Settings, s: State, a: Action, t: State) {
    && s.clock <= a.now
    && match a
       case Plan(now, season, calendar, active, freshId) =>
         && CalendarRows(s, season, calendar)
         && IsActiveJob(s, season, active)
         && freshId !in s.jobs
         && t == PlanStep(settings, s, now, season, calendar, active, freshId)
       case ClaimNext(now, outcome) => ClaimStep(settings, s, now, outcome, t)
       case Heartbeat(now, claim) => t == HeartbeatStep(s, now, claim)
       case Fail(now, claim, failure, jitter) =>
         0.0 <= jitter <= 1.0 && t == FailStep(settings, s, now, claim, failure, jitter)
       case Recover(now, batch, keys, jitters) =>
         && |jitters| == |keys|
         && (forall i :: 0 <= i < |jitters| ==> 0.0 <= jitters[i] <= 1.0)
         && IsStaleBatch(settings, s, now, batch, keys)
         && t == Tick(RecoverRows(settings, s, now, keys, jitters), now)
       case Complete(now, claim) => t == CompleteStep(s, now, claim)
       case Aggregate(now, job, earliest) =>
         job in s.jobs && IsEarliestStart(s, job, earliest) && t == AggregateStep(s, now, job, earliest)
       case Reserve(now, operation) => t == ReserveStep(settings, s, now, operation)
       case Refresh(now, season, races) =>
         RefreshesSeason(s.races, season, races) && t == s.(races := races, clock := now)
  }

  /** A freshly migrated database: no jobs, no requests, and no archive ingestion in flight. */
  ghost predicate Init(s: State) {
    && s.jobs == map[] && s.rows == map[] && s.ledger == []
    && forall i :: i in s.ingestions && s.ingestions[i].source == FastF1Archive ==>
         && !s.ingestions[i].status.Active()
         && 0 <= s.ingestions[i].attemptCount
         && (s.ingestions[i].completedAt.Some? ==> s.ingestions[i].completedAt.value <= s.clock)
  }

  /** A finite run: the states visited and the transactions between them. */
  ghost predicate Run(settings: Settings, states: seq<State>, trace: seq<Action>) {
    && |states| == |trace| + 1
    && Init(states[0])
    && forall i {:trigger trace[i]} :: 0 <= i < |trace| ==> Next(settings, states[i], trace[i], states[i + 1])
  }
}
