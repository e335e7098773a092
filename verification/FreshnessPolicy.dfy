/** When a season's calendar is stale, and when a session's archive must be fetched (again). */
module FreshnessPolicy {
  import opened Wrappers
  import opened RuntimePolicy

  datatype CoverageReason = Fresh | Missing | Stale

  datatype Coverage = Coverage(refreshRequired: bool, reason: CoverageReason, ttl: int, refreshValidUntil: int)

  /** `currentYear` is the UTC year of `now`. */
  function EvaluateSeasonCoverage(season: int, currentYear: int, validUntil: Option<int>, now: int, settings: Settings)
    : Coverage
  {
    var ttl := (if season == currentYear then settings.currentSeasonCoverageTtl
                else settings.historicalSeasonCoverageTtl) * SECOND;
    var reason := match validUntil
      case None => Missing
      case Some(until) => if until <= now then Stale else Fresh;
    Coverage(reason != Fresh, reason, ttl, now + ttl)
  }

  datatype EligibilityReason =
    | ScheduleEndMissing
    | AvailabilityGrace
    | InitialArchive
    | CheckpointPending
    | CorrectionCheckpoint
    | Stable

  datatype Eligibility = Eligibility(
    eligible: bool,
    reason: EligibilityReason,
    eligibleAt: Option<int>,
    checkpointAt: Option<int>)

  datatype FreshnessError = CompletedInFuture

  function Checkpoints(scheduledEnd: int, offsets: seq<int>): (r: seq<int>)
    ensures |r| == |offsets|
    ensures forall i :: 0 <= i < |r| ==> r[i] == scheduledEnd + offsets[i] * SECOND
  {
    if offsets == [] then [] else [scheduledEnd + offsets[0] * SECOND] + Checkpoints(scheduledEnd, offsets[1..])
  }

  function After(checkpoints: seq<int>, instant: int): (r: seq<int>)
    ensures forall c :: c in r <==> c in checkpoints && instant < c
    ensures |r| <= |checkpoints|
  {
    if checkpoints == [] then []
    else if instant < checkpoints[0] then [checkpoints[0]] + After(checkpoints[1..], instant)
    else After(checkpoints[1..], instant)
  }

  function NotAfter(checkpoints: seq<int>, instant: int): (r: seq<int>)
    ensures forall c :: c in r <==> c in checkpoints && c <= instant
  {
    if checkpoints == [] then []
    else if checkpoints[0] <= instant then [checkpoints[0]] + NotAfter(checkpoints[1..], instant)
    else NotAfter(checkpoints[1..], instant)
  }

  predicate Increasing(s: seq<int>) {
    forall i, j :: 0 <= i < j < |s| ==> s[i] < s[j]
  }

  lemma {:induction false} AfterKeepsOrder(checkpoints: seq<int>, instant: int)
    requires Increasing(checkpoints)
    ensures Increasing(After(checkpoints, instant))
  {
    if checkpoints != [] {
      AfterKeepsOrder(checkpoints[1..], instant);
      var rest := After(checkpoints[1..], instant);
      forall j | 0 <= j < |rest| ensures checkpoints[0] < rest[j] {
        assert rest[j] in rest;
      }
    }
  }

  function EvaluateArchiveIngestion(scheduledEnd: Option<int>, completedAt: Option<int>, now: int, settings: Settings)
    : Result<Eligibility, FreshnessError>
  {
    if completedAt.Some? && now < completedAt.value then
      Err(CompletedInFuture)
    else if scheduledEnd.None? then
      Ok(Eligibility(false, ScheduleEndMissing, None, None))
    else if completedAt.None? then
      var initialAt := scheduledEnd.value + settings.Grace();
      if now < initialAt then Ok(Eligibility(false, AvailabilityGrace, Some(initialAt), None))
      else Ok(Eligibility(true, InitialArchive, Some(initialAt), None))
    else
      var unsatisfied := After(Checkpoints(scheduledEnd.value, settings.correctionCheckpoints), completedAt.value);
      var due := NotAfter(unsatisfied, now);
      if due != [] then
        Ok(Eligibility(true, CorrectionCheckpoint, Some(due[|due| - 1]), Some(due[|due| - 1])))
      else if unsatisfied != [] then
        Ok(Eligibility(false, CheckpointPending, Some(unsatisfied[0]), Some(unsatisfied[0])))
      else
        Ok(Eligibility(false, Stable, None, None))
  }

  /** A session is due exactly when its grace has passed, or a checkpoint fell between its completion and now. */
  ghost predicate Due(scheduledEnd: int, completedAt: Option<int>, now: int, settings: Settings) {
    match completedAt
    case None => scheduledEnd + settings.Grace() <= now
    case Some(done) =>
      exists i :: 0 <= i < |settings.correctionCheckpoints|
               && done < scheduledEnd + settings.correctionCheckpoints[i] * SECOND <= now
  }

  lemma EligibleExactlyWhenDue(scheduledEnd: int, completedAt: Option<int>, now: int, settings: Settings)
    requires completedAt.Some? ==> completedAt.value <= now
    ensures var r := EvaluateArchiveIngestion(Some(scheduledEnd), completedAt, now, settings);
            r.Ok? && (r.value.eligible <==> Due(scheduledEnd, completedAt, now, settings))
  {
    if completedAt.Some? {
      var all := Checkpoints(scheduledEnd, settings.correctionCheckpoints);
      var due := NotAfter(After(all, completedAt.value), now);
      if due != [] {
        assert due[|due| - 1] in all;
        var i :| 0 <= i < |all| && all[i] == due[|due| - 1];
        assert due[|due| - 1] in due;
      }
      if i :| 0 <= i < |all| && completedAt.value < all[i] <= now {
        assert all[i] in due;
      }
    }
  }

  lemma CheckpointsIncrease(scheduledEnd: int, settings: Settings)
    requires settings.Valid()
    ensures Increasing(Checkpoints(scheduledEnd, settings.correctionCheckpoints))
  {
  }

  lemma FirstIsLeast(s: seq<int>, x: int)
    requires Increasing(s) && x in s
    ensures s[0] <= x
  {
  }

  lemma DueWaitsForFirst(scheduledEnd: int, done: int, settings: Settings, at: int)
    requires settings.Valid() && Due(scheduledEnd, Some(done), at, settings)
    ensures var unsatisfied := After(Checkpoints(scheduledEnd, settings.correctionCheckpoints), done);
            unsatisfied != [] && unsatisfied[0] <= at
  {
    var all := Checkpoints(scheduledEnd, settings.correctionCheckpoints);
    CheckpointsIncrease(scheduledEnd, settings);
    AfterKeepsOrder(all, done);
    var i :| 0 <= i < |settings.correctionCheckpoints|
      && done < scheduledEnd + settings.correctionCheckpoints[i] * SECOND <= at;
    assert all[i] in After(all, done);
    FirstIsLeast(After(all, done), all[i]);
  }

  lemma FirstUnsatisfiedComesFirst(scheduledEnd: int, done: int, settings: Settings, at: int)
    requires settings.Valid()
    ensures var unsatisfied := After(Checkpoints(scheduledEnd, settings.correctionCheckpoints), done);
            Due(scheduledEnd, Some(done), at, settings) <==> unsatisfied != [] && unsatisfied[0] <= at
  {
    var all := Checkpoints(scheduledEnd, settings.correctionCheckpoints);
    var unsatisfied := After(all, done);
    if unsatisfied != [] && unsatisfied[0] <= at {
      assert unsatisfied[0] in unsatisfied;
      var i :| 0 <= i < |all| && all[i] == unsatisfied[0];
      assert done < scheduledEnd + settings.correctionCheckpoints[i] * SECOND <= at;
    }
    if Due(scheduledEnd, Some(done), at, settings) {
      DueWaitsForFirst(scheduledEnd, done, settings, at);
    }
  }

  /** An ineligible session becomes due at the instant the evaluation names, and at no earlier one. */
  lemma EligibleAtIsTheFirstDueInstant(scheduledEnd: int, completedAt: Option<int>, now: int, settings: Settings,
                                       at: int)
    requires settings.Valid() && (completedAt.Some? ==> completedAt.value <= now) && now <= at
    requires var r := EvaluateArchiveIngestion(Some(scheduledEnd), completedAt, now, settings);
             r.Ok? && !r.value.eligible
    ensures var r := EvaluateArchiveIngestion(Some(scheduledEnd), completedAt, now, settings);
            Due(scheduledEnd, completedAt, at, settings)
            <==> r.value.eligibleAt.Some? && r.value.eligibleAt.value <= at
  {
    if completedAt.Some? {
      FirstUnsatisfiedComesFirst(scheduledEnd, completedAt.value, settings, at);
    }
  }

  /** How many successful ingestions a session can still need: one for the initial archive, one per open checkpoint. */
  function Remaining(scheduledEnd: int, completedAt: Option<int>, settings: Settings): nat {
    match completedAt
    case None => 1 + |settings.correctionCheckpoints|
    case Some(done) => |After(Checkpoints(scheduledEnd, settings.correctionCheckpoints), done)|
  }

  lemma RemainingAtMostAll(scheduledEnd: int, completedAt: Option<int>, settings: Settings)
    ensures Remaining(scheduledEnd, completedAt, settings) <= 1 + |settings.correctionCheckpoints|
    ensures completedAt.Some? ==> Remaining(scheduledEnd, completedAt, settings) <= |settings.correctionCheckpoints|
  {
  }

  lemma {:induction false} LaterLeavesFewer(checkpoints: seq<int>, early: int, late: int)
    requires early <= late
    ensures |After(checkpoints, late)| <= |After(checkpoints, early)|
    ensures (exists c :: c in checkpoints && early < c <= late)
            ==> |After(checkpoints, late)| < |After(checkpoints, early)|
  {
    if checkpoints != [] {
      LaterLeavesFewer(checkpoints[1..], early, late);
    }
  }

  /** Completing a due session, at any later instant, uses up at least one of the ingestions it could still need. */
  lemma CompletionUsesOneUp(scheduledEnd: int, completedAt: Option<int>, dueAt: int, completion: int,
                            settings: Settings)
    requires completedAt.Some? ==> completedAt.value <= dueAt
    requires Due(scheduledEnd, completedAt, dueAt, settings) && dueAt <= completion
    ensures Remaining(scheduledEnd, Some(completion), settings) < Remaining(scheduledEnd, completedAt, settings)
  {
    var all := Checkpoints(scheduledEnd, settings.correctionCheckpoints);
    if completedAt.Some? {
      var i :| 0 <= i < |all| && completedAt.value < all[i] <= dueAt;
      assert all[i] in all;
      LaterLeavesFewer(all, completedAt.value, completion);
    }
  }

  /** A completion, due or not, never leaves more to do than before it. */
  lemma LaterCompletionNeedsNoMore(scheduledEnd: int, completedAt: Option<int>, completion: int, settings: Settings)
    requires completedAt.Some? ==> completedAt.value <= completion
    ensures Remaining(scheduledEnd, Some(completion), settings) <= Remaining(scheduledEnd, completedAt, settings)
  {
    var all := Checkpoints(scheduledEnd, settings.correctionCheckpoints);
    if completedAt.Some? {
      LaterLeavesFewer(all, completedAt.value, completion);
    }
  }

  // ---------------------------------------------------------------- what the verdicts say

  /** Coverage must be refreshed when there is none or its time is up; a refresh lasts the season's own time. */
  lemma CoverageMeaning(season: int, currentYear: int, validUntil: Option<int>, now: int, settings: Settings)
    ensures var c := EvaluateSeasonCoverage(season, currentYear, validUntil, now, settings);
            && (c.refreshRequired <==> validUntil.None? || validUntil.value <= now)
            && (c.reason == Missing <==> validUntil.None?)
            && (c.reason == Fresh <==> !c.refreshRequired)
            && (season == currentYear ==> c.ttl == settings.currentSeasonCoverageTtl * SECOND)
            && (season != currentYear ==> c.ttl == settings.historicalSeasonCoverageTtl * SECOND)
            && c.refreshValidUntil == now + c.ttl
  {
  }

  /** Coverage stored by a refresh is fresh until its time is up, and stale from then on. */
  lemma RefreshLastsItsTime(season: int, currentYear: int, validUntil: Option<int>, now: int, settings: Settings,
                            laterYear: int, later: int)
    ensures var stored := EvaluateSeasonCoverage(season, currentYear, validUntil, now, settings);
            var again := EvaluateSeasonCoverage(season, laterYear, Some(stored.refreshValidUntil), later, settings);
            && (again.reason == Fresh <==> later < now + stored.ttl)
            && (again.reason == Stale <==> now + stored.ttl <= later)
  {
  }

  /** One of the session's correction checkpoints. */
  ghost predicate IsCheckpoint(scheduledEnd: int, settings: Settings, instant: int) {
    exists i :: 0 <= i < |settings.correctionCheckpoints|
             && instant == scheduledEnd + settings.correctionCheckpoints[i] * SECOND
  }

  /** The latest checkpoint between the completion and now. */
  ghost predicate IsLatestDue(scheduledEnd: int, done: int, now: int, settings: Settings, c: int) {
    && IsCheckpoint(scheduledEnd, settings, c) && done < c <= now
    && forall other :: IsCheckpoint(scheduledEnd, settings, other) && done < other <= now ==> other <= c
  }

  /** The earliest checkpoint that the completion left open. */
  ghost predicate IsNextOpen(scheduledEnd: int, done: int, settings: Settings, c: int) {
    && IsCheckpoint(scheduledEnd, settings, c) && done < c
    && forall other :: IsCheckpoint(scheduledEnd, settings, other) && done < other ==> c <= other
  }

  /** What a verdict says about a session that has not been completed yet. */
  ghost predicate SaysOfFirst(scheduledEnd: int, now: int, settings: Settings, v: Eligibility) {
    var from := scheduledEnd + settings.archiveAvailabilityGrace * SECOND;
    && v.eligibleAt == Some(from) && v.checkpointAt == None
    && (v.eligible <==> from <= now)
    && v.reason == if from <= now then InitialArchive else AvailabilityGrace
  }

  /** What a verdict says about a session completed at `done`. */
  ghost predicate SaysOfCompleted(scheduledEnd: int, done: int, now: int, settings: Settings, v: Eligibility) {
    match v.reason
    case CorrectionCheckpoint =>
      && v.eligible && v.eligibleAt.Some? && v.checkpointAt == v.eligibleAt
      && IsLatestDue(scheduledEnd, done, now, settings, v.eligibleAt.value)
    case CheckpointPending =>
      && !v.eligible && v.eligibleAt.Some? && v.checkpointAt == v.eligibleAt && now < v.eligibleAt.value
      && IsNextOpen(scheduledEnd, done, settings, v.eligibleAt.value)
    case Stable =>
      && !v.eligible && v.eligibleAt == None && v.checkpointAt == None
      && forall c :: IsCheckpoint(scheduledEnd, settings, c) ==> c <= done
    case _ => false
  }

  lemma {:induction false} NotAfterKeepsOrder(checkpoints: seq<int>, instant: int)
    requires Increasing(checkpoints)
    ensures Increasing(NotAfter(checkpoints, instant))
  {
    if checkpoints != [] {
      NotAfterKeepsOrder(checkpoints[1..], instant);
      var rest := NotAfter(checkpoints[1..], instant);
      forall j | 0 <= j < |rest| ensures checkpoints[0] < rest[j] {
        assert rest[j] in rest;
      }
    }
  }

  lemma CheckpointsAreListed(scheduledEnd: int, settings: Settings, instant: int)
    ensures IsCheckpoint(scheduledEnd, settings, instant)
            <==> instant in Checkpoints(scheduledEnd, settings.correctionCheckpoints)
  {
    var all := Checkpoints(scheduledEnd, settings.correctionCheckpoints);
    if i :| 0 <= i < |settings.correctionCheckpoints|
            && instant == scheduledEnd + settings.correctionCheckpoints[i] * SECOND {
      assert all[i] == instant;
    }
  }

  lemma CompletedVerdictSays(scheduledEnd: int, done: int, now: int, settings: Settings)
    requires settings.Valid() && done <= now
    ensures SaysOfCompleted(scheduledEnd, done, now, settings,
                            EvaluateArchiveIngestion(Some(scheduledEnd), Some(done), now, settings).value)
  {
    var all := Checkpoints(scheduledEnd, settings.correctionCheckpoints);
    var open := After(all, done);
    var due := NotAfter(open, now);
    forall c ensures IsCheckpoint(scheduledEnd, settings, c) <==> c in all {
      CheckpointsAreListed(scheduledEnd, settings, c);
    }
    CheckpointsIncrease(scheduledEnd, settings);
    AfterKeepsOrder(all, done);
    NotAfterKeepsOrder(open, now);
    forall c | c in open ensures due == [] ==> now < c {
      assert c <= now ==> c in due;
    }
    if due != [] {
      assert due[|due| - 1] in due;
    } else if open != [] {
      assert open[0] in open;
    }
  }

  /** Main result: every verdict names its reason, and the instant that belongs to it. */
  lemma VerdictSays(scheduledEnd: Option<int>, completedAt: Option<int>, now: int, settings: Settings)
    requires settings.Valid()
    ensures var r := EvaluateArchiveIngestion(scheduledEnd, completedAt, now, settings);
            && (r.Err? <==> completedAt.Some? && now < completedAt.value)
            && (r.Ok? ==>
                  match (scheduledEnd, completedAt)
                  case (None, _) => r.value == Eligibility(false, ScheduleEndMissing, None, None)
                  case (Some(end), None) => SaysOfFirst(end, now, settings, r.value)
                  case (Some(end), Some(done)) => SaysOfCompleted(end, done, now, settings, r.value))
  {
    if scheduledEnd.Some? && completedAt.Some? && completedAt.value <= now {
      CompletedVerdictSays(scheduledEnd.value, completedAt.value, now, settings);
    }
  }
}
