/**
 Worker settings, their validation, and the equal-jitter retry arithmetic.
 Settings are whole seconds; every instant and duration elsewhere is in microseconds.
 */
module RuntimePolicy {
  import opened Wrappers

  const SECOND := 1_000_000

  datatype Settings = Settings(
    archiveSessionMinInterval: int,
    rateLimitCooldown: int,
    requestWindow: int,
    requestLibraryLimit: int,
    requestOperationalCeiling: int,
    requestWarningThreshold: int,
    maxAttempts: int,
    backoffBase: int,
    backoffMultiplier: int,
    backoffCap: int,
    jitterMinRatio: real,
    heartbeatInterval: int,
    leaseTimeout: int,
    recoveryScanInterval: int,
    currentSeasonCoverageTtl: int,
    historicalSeasonCoverageTtl: int,
    archiveAvailabilityGrace: int,
    correctionCheckpoints: seq<int>
  ) {
    function MinInterval(): int { archiveSessionMinInterval * SECOND }

    function Cooldown(): int { rateLimitCooldown * SECOND }

    function Window(): int { requestWindow * SECOND }

    function LeaseTimeout(): int { leaseTimeout * SECOND }

    function Grace(): int { archiveAvailabilityGrace * SECOND }

    /** What the settings constructor accepts. */
    predicate Valid() {
      && 1 <= archiveSessionMinInterval < rateLimitCooldown
      && 1 <= requestWindow
      && 1 <= requestWarningThreshold < requestOperationalCeiling < requestLibraryLimit
      && 1 <= maxAttempts
      && 1 <= backoffBase <= backoffCap
      && 1 <= backoffMultiplier
      && 0.0 < jitterMinRatio <= 1.0
      && 1 <= heartbeatInterval < leaseTimeout
      && 1 <= recoveryScanInterval <= leaseTimeout
      && 1 <= currentSeasonCoverageTtl
      && 1 <= historicalSeasonCoverageTtl
      && 1 <= archiveAvailabilityGrace
      && correctionCheckpoints != []
      && (forall i :: 0 <= i < |correctionCheckpoints| ==> archiveAvailabilityGrace < correctionCheckpoints[i])
      && (forall i, j :: 0 <= i < j < |correctionCheckpoints| ==> correctionCheckpoints[i] < correctionCheckpoints[j])
    }
  }

  datatype PolicyError = RetryBudgetExhausted | InvalidAttempt | InvalidJitter

  datatype RetrySchedule = RetrySchedule(nominalDelay: int, delay: int, nextRetryAt: int)

  function Power(base: int, exponent: nat): int {
    if exponent == 0 then 1 else base * Power(base, exponent - 1)
  }

  function NominalSeconds(settings: Settings, failedAttempt: int): int
    requires 1 <= failedAttempt
  {
    var grown := settings.backoffBase * Power(settings.backoffMultiplier, failedAttempt - 1);
    if grown < settings.backoffCap then grown else settings.backoffCap
  }

  /** A fraction of a quantity, which stays between nothing and all of it. */
  function Share(x: real, fraction: real): (r: real)
    ensures 0.0 <= x && 0.0 <= fraction <= 1.0 ==> 0.0 <= r <= x
  {
    assert x - x * fraction == x * (1.0 - fraction);
    x * fraction
  }

  function CalculateRetrySchedule(now: int, failedAttempt: int, jitter: real, settings: Settings)
    : (r: Result<RetrySchedule, PolicyError>)
  {
    if failedAttempt < 1 then
      Err(InvalidAttempt)
    else if failedAttempt >= settings.maxAttempts then
      Err(RetryBudgetExhausted)
    else if !(0.0 <= jitter <= 1.0) then
      Err(InvalidJitter)
    else
      var nominal := NominalSeconds(settings, failedAttempt);
      var minimum := Share(nominal as real, settings.jitterMinRatio);
      var seconds := minimum + Share(nominal as real - minimum, jitter);
      var delay := (seconds * SECOND as real).Floor;
      Ok(RetrySchedule(nominal * SECOND, delay, now + delay))
  }

  lemma {:induction false} PowerGrows(base: int, a: nat, b: nat)
    requires 1 <= base && a <= b
    ensures 1 <= Power(base, a) <= Power(base, b)
    decreases b
  {
    if b == 0 {
    } else if a == b {
      PowerGrows(base, a - 1, b - 1);
      assert Power(base, b) >= Power(base, b - 1);
    } else {
      PowerGrows(base, a, b - 1);
      assert Power(base, b) >= Power(base, b - 1);
    }
  }

  /** Back-off never shrinks from one failed attempt to the next, starts at the base and stays under the cap. */
  lemma BackoffGrowsToCap(settings: Settings, a: int, b: int)
    requires settings.Valid() && 1 <= a <= b
    ensures settings.backoffBase <= NominalSeconds(settings, a) <= NominalSeconds(settings, b) <= settings.backoffCap
  {
    PowerGrows(settings.backoffMultiplier, a - 1, b - 1);
    assert settings.backoffBase * Power(settings.backoffMultiplier, a - 1)
        <= settings.backoffBase * Power(settings.backoffMultiplier, b - 1);
    assert settings.backoffBase * 1 <= settings.backoffBase * Power(settings.backoffMultiplier, a - 1);
  }

  /** The jittered delay of a retry lies between the configured share of the nominal delay and all of it. */
  lemma RetryDelayBounds(now: int, failedAttempt: int, jitter: real, settings: Settings)
    requires settings.Valid() && 1 <= failedAttempt < settings.maxAttempts && 0.0 <= jitter <= 1.0
    ensures var r := CalculateRetrySchedule(now, failedAttempt, jitter, settings);
            && r.Ok?
            && r.value.nextRetryAt == now + r.value.delay
            && 0 <= r.value.delay <= r.value.nominalDelay <= settings.backoffCap * SECOND
            && Share(NominalSeconds(settings, failedAttempt) as real, settings.jitterMinRatio) * SECOND as real - 1.0
               < r.value.delay as real
  {
    BackoffGrowsToCap(settings, failedAttempt, failedAttempt);
    var nominal := NominalSeconds(settings, failedAttempt);
    var minimum := Share(nominal as real, settings.jitterMinRatio);
    FloorOfMicros(minimum + Share(nominal as real - minimum, jitter), minimum, nominal);
  }

  lemma FloorOfMicros(seconds: real, minimum: real, nominal: int)
    requires 0.0 <= minimum <= seconds <= nominal as real
    ensures 0 <= (seconds * SECOND as real).Floor <= nominal * SECOND
    ensures minimum * SECOND as real - 1.0 < (seconds * SECOND as real).Floor as real
  {
  }

  /**
   A retry after this many attempts: the schedule's instant for this jitter, no earlier than the configured share of the
   nominal delay, no later than all of it, and never past the cap.
   */
  ghost predicate RetryInstant(settings: Settings, now: int, failedAttempt: int, jitter: real, retryAt: int) {
    && 1 <= failedAttempt
    && CalculateRetrySchedule(now, failedAttempt, jitter, settings).Ok?
    && CalculateRetrySchedule(now, failedAttempt, jitter, settings).value.nextRetryAt == retryAt
    && now <= retryAt <= now + NominalSeconds(settings, failedAttempt) * SECOND
    && retryAt <= now + settings.backoffCap * SECOND
    && Share(NominalSeconds(settings, failedAttempt) as real, settings.jitterMinRatio) * SECOND as real - 1.0
       < (retryAt - now) as real
  }

  lemma ScheduleIsRetryInstant(settings: Settings, now: int, failedAttempt: int, jitter: real)
    requires settings.Valid() && 1 <= failedAttempt < settings.maxAttempts && 0.0 <= jitter <= 1.0
    ensures var r := CalculateRetrySchedule(now, failedAttempt, jitter, settings);
            r.Ok? && RetryInstant(settings, now, failedAttempt, jitter, r.value.nextRetryAt)
  {
    RetryDelayBounds(now, failedAttempt, jitter, settings);
    BackoffGrowsToCap(settings, failedAttempt, failedAttempt);
  }

  /** The nominal delay starts at the base and is multiplied from one failed attempt to the next, up to the cap. */
  lemma BackoffMultiplies(settings: Settings, a: int)
    requires settings.Valid() && 1 <= a
    ensures NominalSeconds(settings, 1) == settings.backoffBase
    ensures var next := NominalSeconds(settings, a) * settings.backoffMultiplier;
            NominalSeconds(settings, a + 1) == if next < settings.backoffCap then next else settings.backoffCap
  {
    var base, m := settings.backoffBase, settings.backoffMultiplier;
    PowerGrows(m, a - 1, a);
    assert Power(m, a) == m * Power(m, a - 1);
    CommonFactor(base, m, Power(m, a - 1));
    BackoffGrowsToCap(settings, a, a + 1);
    if settings.backoffCap <= base * Power(m, a - 1) {
      AtLeastItself(settings.backoffCap, m);
      AtLeastItself(base * Power(m, a - 1), m);
    }
  }

  lemma CommonFactor(a: int, b: int, c: int)
    ensures a * (b * c) == a * c * b
  {
  }

  lemma AtLeastItself(a: int, m: int)
    requires 0 <= a && 1 <= m
    ensures a <= a * m
  {
  }

  /** Without jitter the delay is the configured share of the nominal one, with all of it the nominal one itself. */
  lemma JitterSpansTheDelay(settings: Settings, now: int, failedAttempt: int)
    requires settings.Valid() && 1 <= failedAttempt < settings.maxAttempts
    ensures var none := CalculateRetrySchedule(now, failedAttempt, 0.0, settings);
            none.Ok? && none.value.delay
                        == (NominalSeconds(settings, failedAttempt) as real * settings.jitterMinRatio
                            * SECOND as real).Floor
    ensures var full := CalculateRetrySchedule(now, failedAttempt, 1.0, settings);
            full.Ok? && full.value.delay == full.value.nominalDelay == NominalSeconds(settings, failedAttempt) * SECOND
  {
  }

  /** More jitter never shortens the delay. */
  lemma JitterLengthens(settings: Settings, now: int, failedAttempt: int, less: real, more: real)
    requires settings.Valid() && 1 <= failedAttempt < settings.maxAttempts && 0.0 <= less <= more <= 1.0
    ensures CalculateRetrySchedule(now, failedAttempt, less, settings).value.delay
            <= CalculateRetrySchedule(now, failedAttempt, more, settings).value.delay
  {
    var nominal := NominalSeconds(settings, failedAttempt);
    BackoffGrowsToCap(settings, failedAttempt, failedAttempt);
    var minimum := Share(nominal as real, settings.jitterMinRatio);
    SharesGrow(nominal as real - minimum, less, more);
    FloorGrows(minimum + Share(nominal as real - minimum, less), minimum + Share(nominal as real - minimum, more));
  }

  lemma SharesGrow(x: real, less: real, more: real)
    requires 0.0 <= x && 0.0 <= less <= more <= 1.0
    ensures Share(x, less) <= Share(x, more)
  {
    assert Share(x, more) - Share(x, less) == x * (more - less) == Share(x, more - less);
  }

  lemma FloorGrows(a: real, b: real)
    requires a <= b
    ensures (a * SECOND as real).Floor <= (b * SECOND as real).Floor
  {
  }

  /** A schedule is refused for exactly three reasons, each checked in turn. */
  lemma ScheduleRefusedExactlyWhen(settings: Settings, now: int, failedAttempt: int, jitter: real)
    ensures var r := CalculateRetrySchedule(now, failedAttempt, jitter, settings);
            && (r.Err? <==> failedAttempt < 1 || settings.maxAttempts <= failedAttempt || jitter < 0.0 || 1.0 < jitter)
            && (r == Err(InvalidAttempt) <==> failedAttempt < 1)
            && (r == Err(RetryBudgetExhausted) <==> 1 <= failedAttempt && settings.maxAttempts <= failedAttempt)
  {
  }
}
