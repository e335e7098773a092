/** The job-progress read model, and that it predicts what the scheduler will do. */
module JobProgress {
  import opened Wrappers
  import opened RuntimePolicy
  import opened ControlPlane
  import opened ControlPlaneInvariant
  import opened Fencing

  datatype Phase =
    | TerminalJob
    | Fetching
    | Idle
    | RateLimitCooldown
    | RequestBudgetCooldown
    | PacingWait
    | RetryBackoff
    | Ready

  datatype Execution = Execution(
    phase: Phase,
    current: Option<RowKey>,
    next: Option<RowKey>,
    lastCompleted: Option<RowKey>,
    nextActionAt: Option<int>)

  /** The job's rows as one read returns them: each exactly once, in any order. */
  ghost predicate RowsOf(s: State, job: JobId, keys: seq<RowKey>) {
    && (forall k :: k in keys <==> k in s.rows && k.job == job)
    && Distinct(keys)
  }

  ghost predicate Distinct(keys: seq<RowKey>) {
    forall i, j :: 0 <= i < j < |keys| ==> keys[i] != keys[j]
  }

  lemma DistinctPrefix(keys: seq<RowKey>)
    requires Distinct(keys) && keys != []
    ensures Distinct(keys[..|keys| - 1]) && keys[|keys| - 1] !in keys[..|keys| - 1]
    ensures keys == keys[..|keys| - 1] + [keys[|keys| - 1]]
  {
  }

  predicate StartsBefore(s: State, now: int, a: RowKey, b: RowKey)
    requires a in s.rows && b in s.rows
  {
    var x, y := s.rows[a].startedAt.GetOr(now), s.rows[b].startedAt.GetOr(now);
    x < y || (x == y && a.session < b.session)
  }

  function FirstRunning(s: State, now: int, keys: seq<RowKey>): (r: Option<RowKey>)
    requires forall k :: k in keys ==> k in s.rows
    ensures r.None? <==> forall k :: k in keys ==> s.rows[k].status != Running
    ensures r.Some? ==> r.value in keys && s.rows[r.value].status == Running
  {
    if keys == [] then None
    else
      var n := |keys| - 1;
      var earlier := FirstRunning(s, now, keys[..n]);
      if s.rows[keys[n]].status != Running then earlier
      else if earlier.Some? && !StartsBefore(s, now, keys[n], earlier.value) then earlier
      else Some(keys[n])
  }

  /** Within one job the read model orders pending rows by retry instant (none first), queue instant and session. */
  predicate ComesUpBefore(s: State, a: RowKey, b: RowKey)
    requires a in s.rows && b in s.rows
  {
    var x, y := s.rows[a], s.rows[b];
    if x.nextRetryAt.Some? != y.nextRetryAt.Some? then x.nextRetryAt.None?
    else if x.nextRetryAt.GetOr(0) != y.nextRetryAt.GetOr(0) then x.nextRetryAt.GetOr(0) < y.nextRetryAt.GetOr(0)
    else if x.queuedAt != y.queuedAt then x.queuedAt < y.queuedAt
    else a.session < b.session
  }

  function FirstPending(s: State, keys: seq<RowKey>): (r: Option<RowKey>)
    requires forall k :: k in keys ==> k in s.rows
    ensures r.None? <==> forall k :: k in keys ==> s.rows[k].status != Pending
    ensures r.Some? ==> r.value in keys && s.rows[r.value].status == Pending
  {
    if keys == [] then None
    else
      var n := |keys| - 1;
      var earlier := FirstPending(s, keys[..n]);
      if s.rows[keys[n]].status != Pending then earlier
      else if earlier.Some? && !ComesUpBefore(s, keys[n], earlier.value) then earlier
      else Some(keys[n])
  }

  /** The order in which rows were completed, by session at the same instant. */
  predicate CompletesAfter(s: State, a: RowKey, b: RowKey)
    requires a in s.rows && b in s.rows && s.rows[a].completedAt.Some? && s.rows[b].completedAt.Some?
  {
    || s.rows[b].completedAt.value < s.rows[a].completedAt.value
    || (s.rows[b].completedAt == s.rows[a].completedAt && b.session < a.session)
  }

  function LastCompleted(s: State, keys: seq<RowKey>): (r: Option<RowKey>)
    requires forall k :: k in keys ==> k in s.rows
    ensures r.Some? ==>
              r.value in keys && s.rows[r.value].status == Completed && s.rows[r.value].completedAt.Some?
  {
    if keys == [] then None
    else
      var n := |keys| - 1;
      var earlier := LastCompleted(s, keys[..n]);
      if s.rows[keys[n]].status != Completed || s.rows[keys[n]].completedAt.None? then earlier
      else if earlier.Some? && !CompletesAfter(s, keys[n], earlier.value) then earlier
      else Some(keys[n])
  }

  function Later(a: Option<int>, b: Option<int>): Option<int> {
    if a.None? then b else if b.None? then a else Some(if a.value < b.value then b.value else a.value)
  }

  /** What the progress endpoint reports about one job at `now`. */
  function ExecutionSnapshot(s: State, job: JobId, keys: seq<RowKey>, now: int): Execution
    requires job in s.jobs && forall k :: k in keys ==> k in s.rows
  {
    var current := FirstRunning(s, now, keys);
    var next := FirstPending(s, keys);
    var last := LastCompleted(s, keys);
    if !s.jobs[job].status.Active() then Execution(TerminalJob, current, next, last, None)
    else if current.Some? then Execution(Fetching, current, next, last, None)
    else if next.None? then Execution(Idle, current, next, last, None)
    else
      var retryAt := s.rows[next.value].nextRetryAt;
      var retryWait := if retryAt.Some? && now < retryAt.value then retryAt else None;
      var gateWait := if now < s.gate.nextRequestAt then Some(s.gate.nextRequestAt) else None;
      var phase :=
        if gateWait.Some? then
          (match s.gate.reason
           case RateLimit => RateLimitCooldown
           case Budget => RequestBudgetCooldown
           case Pacing => PacingWait)
        else if retryWait.Some? then RetryBackoff
        else Ready;
      Execution(phase, current, next, last, Later(retryWait, gateWait))
  }

  lemma ComesUpTransitive(s: State, a: RowKey, b: RowKey, c: RowKey)
    requires a in s.rows && b in s.rows && c in s.rows && ComesUpBefore(s, a, b) && ComesUpBefore(s, b, c)
    ensures ComesUpBefore(s, a, c)
  {
  }

  lemma ComesUpTotal(s: State, a: RowKey, b: RowKey)
    requires a in s.rows && b in s.rows && a.session != b.session && !ComesUpBefore(s, a, b)
    ensures ComesUpBefore(s, b, a)
  {
  }

  lemma LaterPendingWins(s: State, keys: seq<RowKey>, job: JobId, last: RowKey)
    requires (forall key :: key in keys ==> key in s.rows && key.job == job) && last in s.rows && last.job == job
    requires last !in keys && FirstPending(s, keys).Some? && !ComesUpBefore(s, last, FirstPending(s, keys).value)
    ensures ComesUpBefore(s, FirstPending(s, keys).value, last)
  {
    var first := FirstPending(s, keys).value;
    assert first != last;
    assert first.session != last.session;
    ComesUpTotal(s, last, first);
  }

  lemma {:induction false} FirstPendingIsLeast(s: State, keys: seq<RowKey>, job: JobId, k: RowKey)
    requires forall key :: key in keys ==> key in s.rows && key.job == job
    requires Distinct(keys) && k in keys && s.rows[k].status == Pending && FirstPending(s, keys) != Some(k)
    ensures ComesUpBefore(s, FirstPending(s, keys).value, k)
  {
    var n := |keys| - 1;
    var last, earlier := keys[n], FirstPending(s, keys[..n]);
    DistinctPrefix(keys);
    if k == last {
      LaterPendingWins(s, keys[..n], job, last);
    } else {
      assert k in keys[..n];
      if earlier != Some(k) {
        FirstPendingIsLeast(s, keys[..n], job, k);
        if FirstPending(s, keys) == Some(last) {
          ComesUpTransitive(s, last, earlier.value, k);
        }
      }
    }
  }

  // ---------------------------------------------------------------- what the reader is told

  /** The running row that started first, if any runs. */
  ghost predicate IsCurrent(s: State, job: JobId, now: int, current: Option<RowKey>) {
    && (current.None? <==> forall k :: k in s.rows && k.job == job ==> s.rows[k].status != Running)
    && (current.Some? ==>
          && current.value in s.rows && current.value.job == job && s.rows[current.value].status == Running
          && forall k :: k in s.rows && k.job == job && s.rows[k].status == Running ==> NoEarlier(s, now, current, k))
  }

  /** `k` started no earlier than `first`, and has no lower session if they started together. */
  ghost predicate NoEarlier(s: State, now: int, first: Option<RowKey>, k: RowKey)
    requires k in s.rows
  {
    && first.Some? && first.value in s.rows
    && StartedAt(s, now, first.value) <= StartedAt(s, now, k)
    && (StartedAt(s, now, first.value) == StartedAt(s, now, k) ==> first.value.session <= k.session)
  }

  function StartedAt(s: State, now: int, k: RowKey): int
    requires k in s.rows
  {
    if s.rows[k].startedAt.Some? then s.rows[k].startedAt.value else now
  }

  predicate HasCompleted(s: State, job: JobId, k: RowKey) {
    k in s.rows && k.job == job && s.rows[k].status == Completed && s.rows[k].completedAt.Some?
  }

  /** The row completed last, by session when several were completed at the same instant. */
  ghost predicate IsLastCompleted(s: State, job: JobId, last: Option<RowKey>) {
    && (last.None? <==> forall k :: !HasCompleted(s, job, k))
    && (last.Some? ==>
          && HasCompleted(s, job, last.value)
          && forall k :: HasCompleted(s, job, k) ==>
               || s.rows[k].completedAt.value < s.rows[last.value].completedAt.value
               || (s.rows[k].completedAt == s.rows[last.value].completedAt && k.session <= last.value.session))
  }

  /** The cause of each phase. */
  ghost predicate PhaseHasCause(s: State, job: JobId, now: int, view: Execution)
    requires job in s.jobs
  {
    var ended := s.jobs[job].status == Completed || s.jobs[job].status == Failed;
    var closed := now < s.gate.nextRequestAt;
    var waits := !ended && view.current.None? && view.next.Some?;
    && (view.phase == TerminalJob <==> ended)
    && (view.phase == Fetching <==> !ended && view.current.Some?)
    && (view.phase == Idle <==> !ended && view.current.None? && view.next.None?)
    && (view.phase == RateLimitCooldown <==> waits && closed && s.gate.reason == RateLimit)
    && (view.phase == RequestBudgetCooldown <==> waits && closed && s.gate.reason == Budget)
    && (view.phase == PacingWait <==> waits && closed && s.gate.reason == Pacing)
    && (view.phase == RetryBackoff <==> waits && !closed && RetriesAfter(s, now, view.next))
    && (view.phase == Ready <==> waits && !closed && !RetriesAfter(s, now, view.next))
  }

  ghost predicate RetriesAfter(s: State, now: int, next: Option<RowKey>) {
    next.Some? && next.value in s.rows && s.rows[next.value].nextRetryAt.Some?
    && now < s.rows[next.value].nextRetryAt.value
  }

  lemma {:induction false} FirstRunningIsFirst(s: State, now: int, keys: seq<RowKey>, k: RowKey)
    requires forall key :: key in keys ==> key in s.rows
    requires k in keys && s.rows[k].status == Running
    ensures NoEarlier(s, now, FirstRunning(s, now, keys), k)
  {
    var n := |keys| - 1;
    if k in keys[..n] {
      FirstRunningIsFirst(s, now, keys[..n], k);
    } else {
      assert keys == keys[..n] + [keys[n]];
    }
  }

  /** `last` was completed no earlier than `k`. */
  ghost predicate NoLater(s: State, k: RowKey, last: Option<RowKey>)
    requires k in s.rows
  {
    && last.Some? && last.value in s.rows && s.rows[k].completedAt.Some? && s.rows[last.value].completedAt.Some?
    && (|| s.rows[k].completedAt.value < s.rows[last.value].completedAt.value
        || (s.rows[k].completedAt == s.rows[last.value].completedAt && k.session <= last.value.session))
  }

  lemma {:induction false} LastCompletedIsLast(s: State, keys: seq<RowKey>, job: JobId, k: RowKey)
    requires forall key :: key in keys ==> key in s.rows
    requires k in keys && HasCompleted(s, job, k)
    ensures NoLater(s, k, LastCompleted(s, keys))
  {
    var n := |keys| - 1;
    if k in keys[..n] {
      LastCompletedIsLast(s, keys[..n], job, k);
    } else {
      assert keys == keys[..n] + [keys[n]];
    }
  }

  lemma LastCompletedIsLatest(s: State, job: JobId, keys: seq<RowKey>)
    requires RowsOf(s, job, keys)
    ensures IsLastCompleted(s, job, LastCompleted(s, keys))
  {
    var last := LastCompleted(s, keys);
    forall k | HasCompleted(s, job, k) ensures NoLater(s, k, last) {
      LastCompletedIsLast(s, keys, job, k);
    }
    if last.Some? {
      assert HasCompleted(s, job, last.value);
    }
  }

  lemma FirstRunningIsCurrent(s: State, job: JobId, keys: seq<RowKey>, now: int)
    requires RowsOf(s, job, keys)
    ensures IsCurrent(s, job, now, FirstRunning(s, now, keys))
  {
    forall k | k in keys && s.rows[k].status == Running ensures NoEarlier(s, now, FirstRunning(s, now, keys), k) {
      FirstRunningIsFirst(s, now, keys, k);
    }
  }

  /** Main result: each part of the progress view says what its name says, and each phase has its cause. */
  lemma ViewTellsTheState(s: State, job: JobId, keys: seq<RowKey>, now: int)
    requires RowsOf(s, job, keys) && job in s.jobs
    ensures var view := ExecutionSnapshot(s, job, keys, now);
            && IsCurrent(s, job, now, view.current) && IsLastCompleted(s, job, view.lastCompleted)
            && PhaseHasCause(s, job, now, view)
  {
    FirstRunningIsCurrent(s, job, keys, now);
    LastCompletedIsLatest(s, job, keys);
  }

  /** Only this job is active and none of its rows runs. */
  ghost predicate OnlyJobWaiting(s: State, job: JobId) {
    && job in s.jobs && s.jobs[job].status.Active()
    && (forall j :: j in s.jobs && s.jobs[j].status.Active() ==> j == job)
    && forall k :: k in s.rows && k.job == job ==> s.rows[k].status != Running
  }

  /** The first pending row is claimable as soon as anything is, and heads the queue. */
  lemma FirstPendingHeadsQueue(settings: Settings, s: State, job: JobId, keys: seq<RowKey>, at: int)
    requires Inv(settings, s) && RowsOf(s, job, keys) && OnlyJobWaiting(s, job)
    ensures (exists k :: Claimable(settings, s, at, k))
            <==> (FirstPending(s, keys).Some? && Claimable(settings, s, at, FirstPending(s, keys).value))
    ensures FirstPending(s, keys).Some? && Claimable(settings, s, at, FirstPending(s, keys).value)
            ==> IsNextClaim(settings, s, at, FirstPending(s, keys).value)
  {
    var first := FirstPending(s, keys);
    forall k | Claimable(settings, s, at, k)
      ensures first.Some? && Claimable(settings, s, at, first.value)
      ensures k != first.value ==> ClaimsBefore(s.rows, first.value, k)
    {
      assert k in keys;
      if k != first.value {
        FirstPendingIsLeast(s, keys, job, k);
      }
      NoPendingRowStranded(settings, s, at, first.value);
    }
  }

  /** READY holds exactly when a claim at that instant succeeds, and then it returns the session named next. */
  lemma ReadyMeansClaimable(settings: Settings, s: State, job: JobId, keys: seq<RowKey>, now: int,
                            outcome: ClaimOutcome, t: State)
    requires Inv(settings, s) && RowsOf(s, job, keys) && OnlyJobWaiting(s, job)
    requires ClaimStep(settings, s, now, outcome, t)
    ensures var view := ExecutionSnapshot(s, job, keys, now);
            && (view.phase == Ready <==> outcome.Claimed?)
            && (outcome.Claimed? ==> view.next == Some(outcome.claim.Key()))
  {
    FirstPendingHeadsQueue(settings, s, job, keys, now);
    ClaimSucceedsExactlyWhenPossible(settings, s, now, outcome, t);
    var first := FirstPending(s, keys);
    if first.Some? {
      NoPendingRowStranded(settings, s, now, first.value);
    }
    if outcome.Claimed? {
      QueueHasOneHead(settings, s, now);
    }
  }

  /** Otherwise, while a row is pending, the reported instant is the earliest at which a claim succeeds. */
  lemma NextActionIsEarliestClaim(settings: Settings, s: State, job: JobId, keys: seq<RowKey>, now: int, at: int)
    requires Inv(settings, s) && RowsOf(s, job, keys) && OnlyJobWaiting(s, job) && now <= at
    requires FirstPending(s, keys).Some?
    ensures var view := ExecutionSnapshot(s, job, keys, now);
            && (view.phase != Ready <==> view.nextActionAt.Some?)
            && (view.nextActionAt.Some? ==>
                  now < view.nextActionAt.value
                  && (CanClaim(settings, s, at) <==> view.nextActionAt.value <= at))
            && (view.phase == Ready ==> CanClaim(settings, s, at))
  {
    FirstPendingHeadsQueue(settings, s, job, keys, at);
    NoPendingRowStranded(settings, s, at, FirstPending(s, keys).value);
  }

  /** IDLE is transient: the next aggregation of the job ends it. */
  lemma IdleJobEndsOnAggregation(settings: Settings, s: State, job: JobId, keys: seq<RowKey>, now: int,
                                 earliest: Option<int>)
    requires Inv(settings, s) && RowsOf(s, job, keys) && job in s.jobs
    requires ExecutionSnapshot(s, job, keys, now).phase == Idle
    ensures !AggregateStep(s, now, job, earliest).jobs[job].status.Active()
    ensures AggregateStep(s, now, job, earliest).jobs[job].status
            == (if HasRow(s, job, Failed) then Failed else Completed)
  {
    var k :| k in s.rows && k.job == job;
    forall a | a in s.rows && a.job == job ensures !s.rows[a].status.Active() {
      assert a in keys;
    }
  }
}
