/** What a refused reservation promises, and what the usage read model says about the next one. */
module BackPressure {
  import opened Wrappers
  import opened RuntimePolicy
  import opened ControlPlane
  import opened ControlPlaneInvariant
  import opened ControlPlaneEffects
  import opened RequestBudget
  import Freshness = FreshnessPolicy

  lemma {:induction false} OldestMeaning(ledger: seq<RequestEvent>, cutoff: int)
    ensures var oldest := OldestSince(ledger, cutoff);
            && (oldest.None? <==> forall e :: e in ledger ==> e.requestedAt < cutoff)
            && (oldest.Some? ==>
                  && (exists e :: e in ledger && e.requestedAt == oldest.value)
                  && cutoff <= oldest.value
                  && forall e :: e in ledger && cutoff <= e.requestedAt ==> oldest.value <= e.requestedAt)
  {
    if ledger != [] {
      var n := |ledger| - 1;
      OldestMeaning(ledger[..n], cutoff);
      assert ledger == ledger[..n] + [ledger[n]];
      assert forall e :: e in ledger <==> e in ledger[..n] || e == ledger[n];
      var oldest := OldestSince(ledger, cutoff);
      if oldest.Some? && oldest == OldestSince(ledger[..n], cutoff) {
        var e :| e in ledger[..n] && e.requestedAt == oldest.value;
        assert e in ledger;
      } else if oldest.Some? {
        assert ledger[n] in ledger;
      }
    }
  }

  /** A later cutoff that passes some counted entry lowers the count. */
  lemma {:induction false} LaterCutoffCountsFewer(ledger: seq<RequestEvent>, early: int, late: int)
    requires early <= late
    ensures CountSince(ledger, late) <= CountSince(ledger, early)
    ensures (exists e :: e in ledger && early <= e.requestedAt < late) ==>
              CountSince(ledger, late) < CountSince(ledger, early)
  {
    if ledger != [] {
      var n := |ledger| - 1;
      LaterCutoffCountsFewer(ledger[..n], early, late);
      assert ledger == ledger[..n] + [ledger[n]];
      assert forall e :: e in ledger <==> e in ledger[..n] || e == ledger[n];
    }
  }

  lemma {:induction false} HeadDoesNotCount(ledger: seq<RequestEvent>, cutoff: int, m: nat)
    requires m <= |ledger| && forall i :: 0 <= i < |ledger| - m ==> ledger[i].requestedAt < cutoff
    ensures CountSince(ledger, cutoff) <= m
    decreases |ledger|
  {
    if ledger != [] {
      HeadDoesNotCount(ledger[..|ledger| - 1], cutoff, if m == 0 then 0 else m - 1);
    }
  }

  /** In a reachable state the window is never more than full. */
  lemma CountNeverExceedsCeiling(settings: Settings, s: State, times: seq<int>, now: int)
    requires settings.Valid() && BudgetInv(settings, s, times) && s.clock <= now
    ensures CountSince(s.ledger, now - settings.Window()) <= settings.requestOperationalCeiling
  {
    var ceiling := settings.requestOperationalCeiling;
    var gone := |times| - |s.ledger|;
    if ceiling < |s.ledger| {
      forall i | 0 <= i < |s.ledger| - ceiling ensures s.ledger[i].requestedAt < now - settings.Window() {
        assert Times(s.ledger)[i] == times[gone + i];
        assert times[gone + i] <= times[|times| - 1 - ceiling] < times[|times| - 1] - settings.Window();
      }
      HeadDoesNotCount(s.ledger, now - settings.Window(), ceiling);
    } else {
      HeadDoesNotCount(s.ledger, now - settings.Window(), |s.ledger|);
    }
  }

  predicate GateBlocks(s: State, now: int) {
    s.gate.reason != Pacing && now < s.gate.nextRequestAt
  }

  /** A refusal because the window is full, not because the gate is closed. */
  predicate RefusedOnCount(settings: Settings, s: State, now: int) {
    && !GateBlocks(s, now)
    && settings.requestOperationalCeiling <= CountSince(s.ledger, now - settings.Window())
  }

  predicate Pauses(s: State, a: Action) {
    a.Fail? && a.failure.Pauses() && Owns(s, a.claim)
  }

  predicate StartsSession(a: Action) {
    a.ClaimNext? && a.outcome.Claimed?
  }

  function Count(settings: Settings, ledger: seq<RequestEvent>, at: int): nat {
    CountSince(ledger, at - settings.Window())
  }

  /** The window stays full up to the promised instant, with the same oldest request, and has room strictly after it. */
  ghost predicate FullUntil(settings: Settings, ledger: seq<RequestEvent>, from: int, promise: int) {
    forall at :: from <= at ==>
      && (Count(settings, ledger, at) < settings.requestOperationalCeiling <==> promise < at)
      && (at <= promise ==> OldestSince(ledger, at - settings.Window()) == Some(promise - settings.Window()))
  }

  /** At one instant: the window counts the same until the oldest request leaves it, and fewer afterwards. */
  lemma FullAt(settings: Settings, ledger: seq<RequestEvent>, now: int, oldest: int, at: int)
    requires now <= at && OldestSince(ledger, now - settings.Window()) == Some(oldest)
    requires CountSince(ledger, now - settings.Window()) == settings.requestOperationalCeiling
    ensures Count(settings, ledger, at) < settings.requestOperationalCeiling <==> oldest + settings.Window() < at
    ensures at <= oldest + settings.Window() ==> OldestSince(ledger, at - settings.Window()) == Some(oldest)
  {
    OldestMeaning(ledger, now - settings.Window());
    OldestMeaning(ledger, at - settings.Window());
    LaterCutoffCountsFewer(ledger, now - settings.Window(), at - settings.Window());
    if at <= oldest + settings.Window() {
      SameCount(ledger, now - settings.Window(), at - settings.Window());
    }
  }

  /** Strictly after the promised instant the full window has room again; until then it has none. */
  lemma WindowReopensAfterPromise(settings: Settings, s: State, times: seq<int>, now: int)
    requires settings.Valid() && BudgetInv(settings, s, times) && s.clock <= now
    requires RefusedOnCount(settings, s, now)
    ensures Refusal(settings, s, now).Some? && now <= Refusal(settings, s, now).value
    ensures FullUntil(settings, s.ledger, now, Refusal(settings, s, now).value)
  {
    var cutoff := now - settings.Window();
    OldestMeaning(s.ledger, cutoff);
    CountNeverExceedsCeiling(settings, s, times, now);
    if OldestSince(s.ledger, cutoff).None? {
      HeadDoesNotCount(s.ledger, cutoff, 0);
    }
    var oldest := OldestSince(s.ledger, cutoff).value;
    forall at | now <= at
      ensures Count(settings, s.ledger, at) < settings.requestOperationalCeiling <==> oldest + settings.Window() < at
      ensures at <= oldest + settings.Window() ==> OldestSince(s.ledger, at - settings.Window()) == Some(oldest)
    {
      FullAt(settings, s.ledger, now, oldest, at);
    }
  }

  lemma {:induction false} SameCount(ledger: seq<RequestEvent>, early: int, late: int)
    requires early <= late && forall e :: e in ledger && early <= e.requestedAt ==> late <= e.requestedAt
    ensures CountSince(ledger, early) == CountSince(ledger, late)
  {
    if ledger != [] {
      assert ledger[|ledger| - 1] in ledger;
      SameCount(ledger[..|ledger| - 1], early, late);
    }
  }

  lemma RefusalSetsDeadline(settings: Settings, s: State, a: Action, t: State)
    requires settings.Valid() && Next(settings, s, a, t) && a.Reserve? && RefusedOnCount(settings, s, a.now)
    ensures t.ledger == s.ledger && t.gate.reason != Pacing && t.clock == a.now
    ensures Refusal(settings, s, a.now).Some? && Refusal(settings, s, a.now).value <= t.gate.nextRequestAt
  {
  }

  // ---------------------------------------------------------------- from a refusal on count to the next grant

  /**
   The gate after a refusal with deadline D. It stays closed until a session starts, and then merely paces; a
   refusal on count at D itself turns that pacing into a cooldown, which holds until it has run out.
   */
  datatype Wait = Closed | Paced | Held | Reopened

  ghost predicate InWait(settings: Settings, s: State, wait: Wait, deadline: int) {
    match wait
    case Closed => s.gate.reason != Pacing && s.gate.nextRequestAt == deadline
    case Paced =>
      && s.gate.reason == Pacing && deadline <= s.clock
      && (s.clock == deadline ==> s.gate.nextRequestAt == deadline + settings.MinInterval())
    case Held => s.gate.reason != Pacing && s.gate.nextRequestAt == deadline + settings.MinInterval()
      && deadline <= s.clock
    case Reopened => s.gate.reason == Pacing && deadline + settings.MinInterval() <= s.clock
  }

  function NextWait(wait: Wait, a: Action, deadline: int): Wait {
    if StartsSession(a) then
      if wait == Closed || wait == Paced then Paced else Reopened
    else if a.Reserve? && a.now == deadline && wait == Paced then Held
    else wait
  }

  /** Where the wait that began with action `i` stands before action `n`. */
  function WaitAt(trace: seq<Action>, i: nat, n: nat, deadline: int): Wait
    requires i < n <= |trace|
  {
    if n == i + 1 then Closed else NextWait(WaitAt(trace, i, n - 1, deadline), trace[n - 1], deadline)
  }

  /** The window stays full until a promise that the deadline covers. */
  ghost predicate FullPast(settings: Settings, ledger: seq<RequestEvent>, from: int, promise: int, deadline: int) {
    FullUntil(settings, ledger, from, promise) && promise <= deadline
  }

  ghost predicate Waiting(settings: Settings, s: State, ledger: seq<RequestEvent>, from: int, wait: Wait,
                          deadline: int) {
    s.ledger == ledger && from <= s.clock && InWait(settings, s, wait, deadline)
  }

  lemma ReservationWhileWaiting(settings: Settings, s: State, a: Action, t: State, ledger: seq<RequestEvent>, from: int,
                                promise: int, wait: Wait, deadline: int)
    requires settings.Valid() && Next(settings, s, a, t) && a.Reserve?
             && Waiting(settings, s, ledger, from, wait, deadline)
    requires FullPast(settings, ledger, from, promise, deadline) && !Grants(settings, s, a) && a.now <= deadline
    ensures Waiting(settings, t, ledger, from, NextWait(wait, a, deadline), deadline)
  {
    if !GateBlocks(s, a.now) {
      assert settings.requestOperationalCeiling <= Count(settings, ledger, a.now);
      assert a.now == deadline == promise;
    }
  }

  lemma StepWhileWaiting(settings: Settings, s: State, a: Action, t: State, ledger: seq<RequestEvent>, from: int,
                         promise: int, wait: Wait, deadline: int)
    requires settings.Valid() && Next(settings, s, a, t) && Waiting(settings, s, ledger, from, wait, deadline)
    requires FullPast(settings, ledger, from, promise, deadline)
    requires !Pauses(s, a) && !Grants(settings, s, a) && (a.Reserve? ==> a.now <= deadline)
    ensures Waiting(settings, t, ledger, from, NextWait(wait, a, deadline), deadline)
  {
    GateNeverMovesBack(settings, s, a, t);
    OthersKeepLedger(settings, s, a, t);
    if a.Recover? {
      RecoverKeepsGate(settings, s, a.now, a.keys, a.jitters);
    } else if a.Reserve? {
      ReservationWhileWaiting(settings, s, a, t, ledger, from, promise, wait, deadline);
    }
  }

  /** No pause came in between, and no reservation in between was granted or came after the deadline. */
  ghost predicate QuietBetween(settings: Settings, states: seq<State>, trace: seq<Action>, i: nat, j: nat,
                               deadline: int)
    requires j <= |trace| <= |states|
  {
    forall k {:trigger trace[k]} :: i < k < j ==>
      && !Pauses(states[k], trace[k])
      && !Grants(settings, states[k], trace[k])
      && (trace[k].Reserve? ==> trace[k].now <= deadline)
  }

  lemma QuietEarlier(settings: Settings, states: seq<State>, trace: seq<Action>, i: nat, h: nat, j: nat, deadline: int)
    requires h <= j <= |trace| <= |states| && QuietBetween(settings, states, trace, i, j, deadline)
    ensures QuietBetween(settings, states, trace, i, h, deadline)
  {
  }

  ghost predicate WaitingAt(settings: Settings, states: seq<State>, trace: seq<Action>, i: nat, j: nat,
                            ledger: seq<RequestEvent>, from: int, deadline: int)
    requires i < j <= |trace| && |trace| < |states|
  {
    Waiting(settings, states[j], ledger, from, WaitAt(trace, i, j, deadline), deadline)
  }

  lemma QuietStep(settings: Settings, states: seq<State>, trace: seq<Action>, i: nat, j: nat,
                  ledger: seq<RequestEvent>, from: int, promise: int, deadline: int)
    requires settings.Valid() && Run(settings, states, trace) && i + 1 < j <= |trace|
    requires QuietBetween(settings, states, trace, i, j, deadline)
             && FullPast(settings, ledger, from, promise, deadline)
    requires WaitingAt(settings, states, trace, i, j - 1, ledger, from, deadline)
    ensures WaitingAt(settings, states, trace, i, j, ledger, from, deadline)
  {
    StepWhileWaiting(settings, states[j - 1], trace[j - 1], states[j], ledger, from, promise,
                     WaitAt(trace, i, j - 1, deadline), deadline);
  }

  lemma {:induction false} WaitsOn(settings: Settings, states: seq<State>, trace: seq<Action>, i: nat, j: nat,
                                   ledger: seq<RequestEvent>, from: int, promise: int, deadline: int)
    requires settings.Valid() && Run(settings, states, trace) && i < j <= |trace|
    requires QuietBetween(settings, states, trace, i, j, deadline)
             && FullPast(settings, ledger, from, promise, deadline)
    requires WaitingAt(settings, states, trace, i, i + 1, ledger, from, deadline)
    ensures WaitingAt(settings, states, trace, i, j, ledger, from, deadline)
    decreases j
  {
    if j > i + 1 {
      QuietEarlier(settings, states, trace, i, j - 1, j, deadline);
      WaitsOn(settings, states, trace, i, j - 1, ledger, from, promise, deadline);
      QuietStep(settings, states, trace, i, j, ledger, from, promise, deadline);
    }
  }

  ghost predicate SessionStarted(trace: seq<Action>, i: nat, n: nat)
    requires n <= |trace|
  {
    exists m :: i < m < n && StartsSession(trace[m])
  }

  /** After a session start, a reservation came at exactly the deadline. */
  ghost predicate ReservedAtDeadlineAfterStart(trace: seq<Action>, i: nat, n: nat, deadline: int)
    requires n <= |trace|
  {
    exists k :: i < k < n && trace[k].Reserve? && trace[k].now == deadline && SessionStarted(trace, i, k)
  }

  lemma {:induction false} WaitMeaning(trace: seq<Action>, i: nat, n: nat, deadline: int)
    requires i < n <= |trace|
    ensures WaitAt(trace, i, n, deadline) != Closed <==> SessionStarted(trace, i, n)
    ensures WaitAt(trace, i, n, deadline) == Held || WaitAt(trace, i, n, deadline) == Reopened
            <==> ReservedAtDeadlineAfterStart(trace, i, n, deadline)
    decreases n
  {
    if n > i + 1 {
      WaitMeaning(trace, i, n - 1, deadline);
      if StartsSession(trace[n - 1]) {
        assert SessionStarted(trace, i, n);
      }
      if trace[n - 1].Reserve? && trace[n - 1].now == deadline && SessionStarted(trace, i, n - 1) {
        assert ReservedAtDeadlineAfterStart(trace, i, n, deadline);
      }
      assert SessionStarted(trace, i, n) <==> SessionStarted(trace, i, n - 1) || StartsSession(trace[n - 1]);
    }
  }

  lemma WaitsOnAfterRefusal(settings: Settings, states: seq<State>, trace: seq<Action>, i: nat, j: nat)
    requires settings.Valid() && settings.Window() <= EVENT_RETENTION && Run(settings, states, trace)
             && i < j <= |trace|
    requires trace[i].Reserve? && RefusedOnCount(settings, states[i], trace[i].now)
    requires QuietBetween(settings, states, trace, i, j, states[i + 1].gate.nextRequestAt)
    ensures var deadline := states[i + 1].gate.nextRequestAt;
            && InWait(settings, states[j], WaitAt(trace, i, j, deadline), deadline)
            && forall at :: deadline < at ==> Count(settings, states[j].ledger, at) < settings.requestOperationalCeiling
  {
    BudgetAlways(settings, states, trace, i);
    WindowReopensAfterPromise(settings, states[i], History(settings, states, trace, i), trace[i].now);
    RefusalSetsDeadline(settings, states[i], trace[i], states[i + 1]);
    var refused := states[i + 1];
    WaitsOn(settings, states, trace, i, j, refused.ledger, refused.clock,
            Refusal(settings, states[i], trace[i].now).value, refused.gate.nextRequestAt);
  }

  /**
   Main result: after a refusal on count, with no pause and nothing granted in between, a reservation strictly after
   the gate's deadline is granted, except in one case: a session started and another reservation then came at exactly
   the deadline. In that case, and only then, the wait lasts until the pacing interval of that start has passed too.
   */
  lemma GrantedAfterDeadlineExactlyWhen(settings: Settings, states: seq<State>, trace: seq<Action>, i: nat, j: nat)
    requires settings.Valid() && settings.Window() <= EVENT_RETENTION && Run(settings, states, trace) && i < j < |trace|
    requires trace[i].Reserve? && RefusedOnCount(settings, states[i], trace[i].now)
    requires QuietBetween(settings, states, trace, i, j, states[i + 1].gate.nextRequestAt)
    requires trace[j].Reserve? && states[i + 1].gate.nextRequestAt < trace[j].now
    ensures var deadline := states[i + 1].gate.nextRequestAt;
            Grants(settings, states[j], trace[j])
            <==> || !ReservedAtDeadlineAfterStart(trace, i, j, deadline)
                 || deadline + settings.MinInterval() <= trace[j].now
  {
    var deadline := states[i + 1].gate.nextRequestAt;
    WaitsOnAfterRefusal(settings, states, trace, i, j);
    WaitMeaning(trace, i, j, deadline);
    assert Count(settings, states[j].ledger, trace[j].now) < settings.requestOperationalCeiling;
    assert Next(settings, states[j], trace[j], states[j + 1]);
  }

  ghost predicate ReservesOnlyBefore(states: seq<State>, trace: seq<Action>, i: nat, j: nat, deadline: int)
    requires j <= |trace| <= |states|
  {
    forall k {:trigger trace[k]} :: i < k < j ==>
      !Pauses(states[k], trace[k]) && (trace[k].Reserve? ==> trace[k].now < deadline)
  }

  /** The gate is closed at the deadline until the clock reaches it. */
  ghost predicate ClosedUntil(s: State, deadline: int) {
    s.clock < deadline ==> s.gate.reason != Pacing && s.gate.nextRequestAt == deadline
  }

  lemma StepBeforeDeadline(settings: Settings, s: State, a: Action, t: State, deadline: int)
    requires settings.Valid() && Next(settings, s, a, t) && ClosedUntil(s, deadline)
    requires !Pauses(s, a) && (a.Reserve? ==> a.now < deadline)
    ensures ClosedUntil(t, deadline) && !Grants(settings, s, a)
  {
    if a.Recover? {
      RecoverKeepsGate(settings, s, a.now, a.keys, a.jitters);
    }
  }

  lemma RunStepBeforeDeadline(settings: Settings, states: seq<State>, trace: seq<Action>, i: nat, j: nat, deadline: int)
    requires settings.Valid() && Run(settings, states, trace) && i + 1 < j <= |trace|
    requires ReservesOnlyBefore(states, trace, i, j, deadline) && ClosedUntil(states[j - 1], deadline)
    ensures ClosedUntil(states[j], deadline) && !Grants(settings, states[j - 1], trace[j - 1])
  {
    StepBeforeDeadline(settings, states[j - 1], trace[j - 1], states[j], deadline);
  }

  lemma ReservesEarlier(states: seq<State>, trace: seq<Action>, i: nat, h: nat, j: nat, deadline: int)
    requires h <= j <= |trace| <= |states| && ReservesOnlyBefore(states, trace, i, j, deadline)
    ensures ReservesOnlyBefore(states, trace, i, h, deadline)
  {
  }

  /** Reservations before the deadline are refused, so nothing is granted in between. */
  lemma {:induction false} RefusedBeforeDeadline(settings: Settings, states: seq<State>, trace: seq<Action>, i: nat,
                                                 j: nat,
                                                 deadline: int)
    requires settings.Valid() && Run(settings, states, trace) && i < j <= |trace|
    requires ReservesOnlyBefore(states, trace, i, j, deadline) && ClosedUntil(states[i + 1], deadline)
    ensures QuietBetween(settings, states, trace, i, j, deadline) && ClosedUntil(states[j], deadline)
    decreases j
  {
    if j > i + 1 {
      ReservesEarlier(states, trace, i, j - 1, j, deadline);
      RefusedBeforeDeadline(settings, states, trace, i, j - 1, deadline);
      RunStepBeforeDeadline(settings, states, trace, i, j, deadline);
    }
  }

  /** With earlier reservations only before the deadline, whatever sessions start, the first one after it is granted. */
  lemma FirstReservationAfterDeadlineIsGranted(settings: Settings, states: seq<State>, trace: seq<Action>, i: nat,
                                               j: nat)
    requires settings.Valid() && settings.Window() <= EVENT_RETENTION && Run(settings, states, trace) && i < j < |trace|
    requires trace[i].Reserve? && RefusedOnCount(settings, states[i], trace[i].now)
    requires ReservesOnlyBefore(states, trace, i, j, states[i + 1].gate.nextRequestAt)
    requires trace[j].Reserve? && states[i + 1].gate.nextRequestAt < trace[j].now
    ensures Grants(settings, states[j], trace[j])
  {
    RefusalSetsDeadline(settings, states[i], trace[i], states[i + 1]);
    RefusedBeforeDeadline(settings, states, trace, i, j, states[i + 1].gate.nextRequestAt);
    GrantedAfterDeadlineExactlyWhen(settings, states, trace, i, j);
  }

  /** Every reservation before a promised instant is refused, whatever happens in between. */
  lemma RefusedUntilPromise(settings: Settings, states: seq<State>, trace: seq<Action>, i: nat, j: nat)
    requires settings.Valid() && Run(settings, states, trace) && i < j < |trace|
    requires trace[i].Reserve? && Refusal(settings, states[i], trace[i].now).Some?
    requires trace[j].Reserve? && trace[j].now < Refusal(settings, states[i], trace[i].now).value
    ensures Refusal(settings, states[j], trace[j].now).Some?
  {
    if Grants(settings, states[j], trace[j]) {
      CooldownsAreRespected(settings, states, trace, i, j);
    }
  }

  // ---------------------------------------------------------------- a run that waits longer

  const WITNESS_KEY := RowKey(0, 0)

  lemma {:induction false} BurstCounts(n: nat, cutoff: int)
    requires cutoff <= 0
    ensures CountSince(Repeat(RequestEvent(Archive, 0), n), cutoff) == n
    ensures 0 < n ==> OldestSince(Repeat(RequestEvent(Archive, 0), n), cutoff) == Some(0)
  {
    if n != 0 {
      BurstCounts(n - 1, cutoff);
    }
  }

  /** A full window at instant 0. */
  lemma FullBurst(settings: Settings) returns (states: seq<State>, trace: seq<Action>)
    requires settings.Valid()
    ensures Run(settings, states, trace)
    ensures states[|trace|]
            == EMPTY_STATE.(ledger := Repeat(RequestEvent(Archive, 0), settings.requestOperationalCeiling))
  {
    var n := settings.requestOperationalCeiling;
    var shorter, actions := Burst(settings, n - 1);
    var full := Repeat(RequestEvent(Archive, 0), n);
    assert full == shorter[n - 1].ledger + [RequestEvent(Archive, 0)];
    BurstIsKept(n);
    states, trace := GrantLate(settings, shorter, actions, 0, full);
  }

  lemma OneMoreStep(settings: Settings, states: seq<State>, trace: seq<Action>, a: Action, t: State)
    requires Run(settings, states, trace) && Next(settings, states[|trace|], a, t)
    ensures Run(settings, states + [t], trace + [a])
  {
  }

  /** A session that has been due since before instant 0. */
  function WitnessRaces(settings: Settings): map<SessionId, Race> {
    map[0 := Race(0, Some(-settings.Grace()))]
  }

  /** The calendar gains one due session. */
  function WithSession(settings: Settings, s: State): State {
    s.(races := WitnessRaces(settings))
  }

  /** Its season's job is queued. */
  function WithJob(s: State): State {
    s.(jobs := map[0 := Job(0, Pending, None, None, None, None)], rows := map[WITNESS_KEY := QueuedRow(0)])
  }

  lemma WitnessIsEligible(settings: Settings, s: State)
    requires settings.Valid() && s == WithSession(settings, EMPTY_STATE).(ledger := s.ledger)
    ensures EligibleSessions(settings, s, 0, [0], false) == Ok([0])
  {
    var calendar: seq<SessionId>, none: seq<SessionId> := [0], [];
    assert !ForeignIngestion(s, 0) && !IngestionBusy(s, 0) && CompletedAt(s, 0) == None;
    assert Freshness.EvaluateArchiveIngestion(s.races[0].scheduledEnd, None, 0, settings).value.eligible;
    assert calendar[..0] == none && none + [0] == calendar;
    assert EligibleSessions(settings, s, 0, none, false) == Ok(none);
  }

  lemma WitnessIsQueued(s: State)
    requires s.rows == map[] && s.ingestions == map[]
    ensures QueueRows(s, 0, 0, [0]) == map[WITNESS_KEY := QueuedRow(0)]
  {
    var calendar: seq<SessionId>, none: seq<SessionId> := [0], [];
    assert calendar[..0] == none && QueueRows(s, 0, 0, none) == s.rows;
  }

  lemma WitnessPlan(settings: Settings, s: State)
    requires settings.Valid() && s == WithSession(settings, EMPTY_STATE).(ledger := s.ledger)
    ensures Next(settings, s, Plan(0, 0, [0], None, 0), WithJob(s))
  {
    WitnessIsEligible(settings, s);
    WitnessIsQueued(s);
    assert CalendarRows(s, 0, [0]);
  }

  lemma WitnessStart(settings: Settings, s: State, now: int)
    requires settings.Valid() && s.clock <= now && s.gate.nextRequestAt <= now
    requires s == WithJob(WithSession(settings, EMPTY_STATE)).(ledger := s.ledger, gate := s.gate, clock := s.clock)
    ensures Next(settings, s, ClaimNext(now, Claimed(Claim(0, 0, 1, 1, now))),
                 ClaimRow(settings, s, now, WITNESS_KEY).(clock := now))
  {
    assert forall other :: Claimable(settings, s, now, other) ==> other == WITNESS_KEY;
    assert IsNextClaim(settings, s, now, WITNESS_KEY);
  }

  /** A reservation at the very end of a full window, with the gate merely pacing, turns the pacing into a cooldown. */
  lemma WitnessReserve(settings: Settings, s: State, now: int)
    requires settings.Valid() && s.clock <= now && !GateBlocks(s, now)
    requires now - settings.Window() <= 0
             && s.ledger == Repeat(RequestEvent(Archive, 0), settings.requestOperationalCeiling)
    ensures RefusedOnCount(settings, s, now)
    ensures Refusal(settings, s, now) == Some(settings.Window())
    ensures Next(settings, s, Reserve(now, Archive),
                 s.(gate := Gate(if s.gate.nextRequestAt < settings.Window() then settings.Window()
                                 else s.gate.nextRequestAt,
                                 Budget), clock := now))
  {
    BurstCounts(settings.requestOperationalCeiling, now - settings.Window());
  }

  /** The first half of the run: a full window, a queued session, and a refusal that promises the end of the window. */
  lemma RefusedWithSessionQueued(settings: Settings) returns (states: seq<State>, trace: seq<Action>)
    requires settings.Valid()
    ensures Run(settings, states, trace) && 0 < |trace|
    ensures trace[|trace| - 1] == Reserve(0, Archive) && RefusedOnCount(settings, states[|trace| - 1], 0)
    ensures Refusal(settings, states[|trace| - 1], 0) == Some(settings.Window())
    ensures states[|trace|] == WithJob(WithSession(settings, EMPTY_STATE)).(
                                 ledger := Repeat(RequestEvent(Archive, 0), settings.requestOperationalCeiling),
                                 gate := Gate(settings.Window(), Budget))
  {
    states, trace := FullBurst(settings);
    var full := states[|trace|];
    var scheduled := WithSession(settings, full);
    OneMoreStep(settings, states, trace, Refresh(0, 0, WitnessRaces(settings)), scheduled);
    states, trace := states + [scheduled], trace + [Refresh(0, 0, WitnessRaces(settings))];
    WitnessPlan(settings, scheduled);
    OneMoreStep(settings, states, trace, Plan(0, 0, [0], None, 0), WithJob(scheduled));
    states, trace := states + [WithJob(scheduled)], trace + [Plan(0, 0, [0], None, 0)];
    WitnessReserve(settings, WithJob(scheduled), 0);
    var refused := WithJob(scheduled).(gate := Gate(settings.Window(), Budget));
    OneMoreStep(settings, states, trace, Reserve(0, Archive), refused);
    states, trace := states + [refused], trace + [Reserve(0, Archive)];
  }

  /** The second half: a session starts at exactly the deadline, and so does the next, refused, reservation. */
  lemma HeldAfterDeadline(settings: Settings, states: seq<State>, trace: seq<Action>)
      returns (longer: seq<State>, actions: seq<Action>)
    requires settings.Valid() && Run(settings, states, trace)
    requires states[|trace|] == WithJob(WithSession(settings, EMPTY_STATE)).(
                                  ledger := Repeat(RequestEvent(Archive, 0), settings.requestOperationalCeiling),
                                  gate := Gate(settings.Window(), Budget))
    ensures Run(settings, longer, actions) && states <= longer && trace <= actions && |actions| == |trace| + 3
    ensures actions[|trace|].ClaimNext? && StartsSession(actions[|trace|])
    ensures actions[|trace| + 1] == Reserve(settings.Window(), Archive)
            && !Grants(settings, longer[|trace| + 1], actions[|trace| + 1])
    ensures actions[|trace| + 2] == Reserve(settings.Window() + 1, Archive)
    ensures !Grants(settings, longer[|trace| + 2], actions[|trace| + 2])
  {
    var at, s := settings.Window(), states[|trace|];
    WitnessStart(settings, s, at);
    var start := ClaimNext(at, Claimed(Claim(0, 0, 1, 1, at)));
    var started := ClaimRow(settings, s, at, WITNESS_KEY).(clock := at);
    OneMoreStep(settings, states, trace, start, started);
    longer, actions := states + [started], trace + [start];
    WitnessReserve(settings, started, at);
    var held := started.(gate := Gate(at + settings.MinInterval(), Budget));
    OneMoreStep(settings, longer, actions, Reserve(at, Archive), held);
    longer, actions := longer + [held], actions + [Reserve(at, Archive)];
    assert ReserveStep(settings, held, at + 1, Archive) == Tick(held, at + 1);
    OneMoreStep(settings, longer, actions, Reserve(at + 1, Archive), Tick(held, at + 1));
    longer, actions := longer + [Tick(held, at + 1)], actions + [Reserve(at + 1, Archive)];
  }

  /** A session start and an ungranted reservation by the deadline are quiet. */
  lemma QuietPair(settings: Settings, states: seq<State>, trace: seq<Action>, i: nat, deadline: int)
    requires i + 3 <= |trace| <= |states| && trace[i + 1].ClaimNext?
    requires trace[i + 2].Reserve? && trace[i + 2].now <= deadline && !Grants(settings, states[i + 2], trace[i + 2])
    ensures QuietBetween(settings, states, trace, i, i + 3, deadline)
  {
  }

  lemma StartedThenReserved(trace: seq<Action>, i: nat, deadline: int)
    requires i + 3 <= |trace| && StartsSession(trace[i + 1])
    requires trace[i + 2].Reserve? && trace[i + 2].now == deadline
    ensures ReservedAtDeadlineAfterStart(trace, i, i + 3, deadline)
  {
    assert SessionStarted(trace, i, i + 2);
  }

  /**
   The exception happens, under any settings: the promise equals the deadline, a session starts at exactly that
   instant, a reservation at that instant is refused, and so is one strictly after it, when the window has room again.
   */
  lemma StartAtDeadlineExtendsTheWait(settings: Settings)
      returns (states: seq<State>, trace: seq<Action>, i: nat, j: nat)
    requires settings.Valid()
    ensures Run(settings, states, trace) && i + 2 < j < |trace|
    ensures trace[i].Reserve? && RefusedOnCount(settings, states[i], trace[i].now)
    ensures var deadline := states[i + 1].gate.nextRequestAt;
            && Refusal(settings, states[i], trace[i].now) == Some(deadline)
            && QuietBetween(settings, states, trace, i, j, deadline)
            && ReservedAtDeadlineAfterStart(trace, i, j, deadline)
            && trace[j].Reserve? && deadline < trace[j].now
            && !Grants(settings, states[j], trace[j])
  {
    var before, actions := RefusedWithSessionQueued(settings);
    states, trace := HeldAfterDeadline(settings, before, actions);
    i, j := |actions| - 1, |actions| + 2;
    assert states[i] == before[i] && states[i + 1] == before[i + 1] && trace[i] == actions[i];
    QuietPair(settings, states, trace, i, settings.Window());
    StartedThenReserved(trace, i, settings.Window());
  }

  // ---------------------------------------------------------------- the usage read model

  datatype UsageStatus = Available | Warning | Paused | RateLimited

  datatype Usage = Usage(
    archive: nat,
    schedule: nat,
    telemetry: nat,
    remainingBeforePause: nat,
    nextCapacityAt: Option<int>,
    cooldownUntil: Option<int>,
    cooldownReason: Option<GateReason>,
    status: UsageStatus)

  function CountOf(ledger: seq<RequestEvent>, cutoff: int, operation: Operation): nat {
    if ledger == [] then 0
    else
      var last := ledger[|ledger| - 1];
      CountOf(ledger[..|ledger| - 1], cutoff, operation)
      + if cutoff <= last.requestedAt && last.operation == operation then 1 else 0
  }

  function ReadUsage(settings: Settings, s: State, now: int): Usage {
    var cutoff := now - settings.Window();
    var archive := CountOf(s.ledger, cutoff, Archive);
    var schedule := CountOf(s.ledger, cutoff, Schedule);
    var telemetry := CountOf(s.ledger, cutoff, Telemetry);
    var observed := archive + schedule + telemetry;
    var full := settings.requestOperationalCeiling <= observed;
    var cooling := s.gate.reason != Pacing && now < s.gate.nextRequestAt;
    Usage(
      archive, schedule, telemetry,
      if full then 0 else settings.requestOperationalCeiling - observed,
      if full then Some(OldestSince(s.ledger, cutoff).GetOr(now) + settings.Window()) else None,
      if cooling then Some(s.gate.nextRequestAt) else None,
      if cooling then Some(s.gate.reason) else None,
      if cooling && s.gate.reason == RateLimit then UsageStatus.RateLimited
      else if cooling || full then Paused
      else if settings.requestWarningThreshold <= observed then Warning
      else Available)
  }

  lemma {:induction false} OperationsAddUp(ledger: seq<RequestEvent>, cutoff: int)
    ensures CountOf(ledger, cutoff, Archive) + CountOf(ledger, cutoff, Schedule) + CountOf(ledger, cutoff, Telemetry)
            == CountSince(ledger, cutoff)
  {
    if ledger != [] {
      OperationsAddUp(ledger[..|ledger| - 1], cutoff);
    }
  }

  /** The status page says paused or rate-limited exactly when a reservation now would be refused, and until when. */
  lemma UsagePredictsReservation(settings: Settings, s: State, now: int)
    ensures var usage := ReadUsage(settings, s, now);
            && (usage.status == Paused || usage.status == UsageStatus.RateLimited <==> Refusal(settings, s, now).Some?)
            && Refusal(settings, s, now) == usage.cooldownUntil.Or(usage.nextCapacityAt)
            && (usage.status == Available || usage.status == Warning ==> 0 < usage.remainingBeforePause)
  {
    OperationsAddUp(s.ledger, now - settings.Window());
  }

  /** The counted requests of one kind. */
  ghost function CountedAs(settings: Settings, s: State, now: int, operation: Operation): set<nat> {
    set i | i in Counted(settings, s, now) && s.ledger[i].operation == operation
  }

  lemma {:induction false} CountOfCounts(settings: Settings, s: State, now: int, operation: Operation)
    ensures CountOf(s.ledger, now - settings.Window(), operation) == |CountedAs(settings, s, now, operation)|
    decreases |s.ledger|
  {
    var counted := CountedAs(settings, s, now, operation);
    if s.ledger == [] {
      assert counted == {};
    } else {
      var n := |s.ledger| - 1;
      var shorter := s.(ledger := s.ledger[..n]);
      CountOfCounts(settings, shorter, now, operation);
      assert CountedAs(settings, shorter, now, operation) == counted - {n};
    }
  }

  /** Every number, instant and status on the usage page, from the gate and the requests that still count. */
  ghost predicate UsageTells(settings: Settings, s: State, now: int, usage: Usage) {
    var observed := |Counted(settings, s, now)|;
    && usage.archive == |CountedAs(settings, s, now, Archive)|
    && usage.schedule == |CountedAs(settings, s, now, Schedule)|
    && usage.telemetry == |CountedAs(settings, s, now, Telemetry)|
    && usage.archive + usage.schedule + usage.telemetry == observed
    && (observed <= settings.requestOperationalCeiling ==>
          observed + usage.remainingBeforePause == settings.requestOperationalCeiling)
    && (settings.requestOperationalCeiling <= observed ==> usage.remainingBeforePause == 0)
    && (usage.nextCapacityAt.Some? <==> settings.requestOperationalCeiling <= observed)
    && (usage.nextCapacityAt.Some? ==> OldestLeaves(settings, s, now, usage.nextCapacityAt.value))
    && usage.cooldownUntil == (if GateHolds(s, now) then Some(s.gate.nextRequestAt) else None)
    && usage.cooldownReason == (if GateHolds(s, now) then Some(s.gate.reason) else None)
    && match usage.status
       case RateLimited => GateHolds(s, now) && s.gate.reason == RateLimit
       case Paused =>
         && (GateHolds(s, now) || settings.requestOperationalCeiling <= observed)
         && !(GateHolds(s, now) && s.gate.reason == RateLimit)
       case Warning =>
         !GateHolds(s, now) && settings.requestWarningThreshold <= observed < settings.requestOperationalCeiling
       case Available =>
         !GateHolds(s, now) && observed < settings.requestWarningThreshold
         && observed < settings.requestOperationalCeiling
  }

  lemma FullNamesOldest(settings: Settings, s: State, now: int)
    requires settings.Valid() && settings.requestOperationalCeiling <= |Counted(settings, s, now)|
    ensures OldestLeaves(settings, s, now,
                         OldestSince(s.ledger, now - settings.Window()).GetOr(now) + settings.Window())
  {
    var open := s.(gate := Gate(now, Pacing));
    assert Counted(settings, open, now) == Counted(settings, s, now);
    CountSinceCounts(settings, open, now);
    RefusalNamesOldest(settings, open, now);
    assert OldestLeaves(settings, open, now, Refusal(settings, open, now).value);
  }

  /** Main result: the usage page says what the gate and the ledger say. */
  lemma UsageTellsTheState(settings: Settings, s: State, now: int)
    requires settings.Valid()
    ensures UsageTells(settings, s, now, ReadUsage(settings, s, now))
  {
    CountOfCounts(settings, s, now, Archive);
    CountOfCounts(settings, s, now, Schedule);
    CountOfCounts(settings, s, now, Telemetry);
    OperationsAddUp(s.ledger, now - settings.Window());
    CountSinceCounts(settings, s, now);
    if settings.requestOperationalCeiling <= |Counted(settings, s, now)| {
      FullNamesOldest(settings, s, now);
    }
  }
}
