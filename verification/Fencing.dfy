/**
 What holds over whole runs of the control plane: claims are fenced by a session token that only grows,
 attempts are accounted for exactly, and no queued session is stranded.
 */
module Fencing {
  import opened Wrappers
  import opened RuntimePolicy
  import opened ControlPlane
  import opened ControlPlaneInvariant

  function Token(s: State, session: SessionId): int {
    if session in s.ingestions then s.ingestions[session].attemptCount else 0
  }

  ghost predicate Issues(a: Action, c: Claim) {
    a.ClaimNext? && a.outcome == Claimed(c)
  }

  /** A claim whose session has moved on: a newer token, or the same token no longer running. */
  ghost predicate Retired(s: State, c: Claim) {
    && c.session in s.ingestions
    && c.token <= s.ingestions[c.session].attemptCount
    && (c.token == s.ingestions[c.session].attemptCount ==> s.ingestions[c.session].status != Running)
  }

  /** The ownership check singles out one claim per session. */
  lemma OneOwnerPerSession(settings: Settings, s: State, c: Claim, d: Claim)
    requires Inv(settings, s) && Owns(s, c) && Owns(s, d) && c.session == d.session
    ensures c.(claimedAt := 0) == d.(claimedAt := 0)
  {
    AtMostOneActiveRow(settings, s, c.Key(), d.Key());
  }

  lemma {:induction false} RecoverNeverLowersTokens(settings: Settings, s: State, now: int, keys: seq<RowKey>,
                                                    jitters: seq<real>)
    requires |jitters| == |keys|
    ensures var t := RecoverRows(settings, s, now, keys, jitters);
            && t.ingestions.Keys == s.ingestions.Keys
            && forall i :: i in s.ingestions ==>
              && t.ingestions[i].attemptCount == s.ingestions[i].attemptCount
              && (t.ingestions[i].status == Running ==> s.ingestions[i].status == Running)
  {
    if keys != [] {
      RecoverNeverLowersTokens(settings, s, now, keys[..|keys| - 1], jitters[..|keys| - 1]);
    }
  }

  /**
   Session tokens never go down; a step that issues a claim raises its session's token to the claim's;
   and without a new token a session that has stopped running does not start again.
   */
  lemma TokensOnlyGrow(settings: Settings, s: State, a: Action, t: State, session: SessionId)
    requires Next(settings, s, a, t)
    ensures Token(s, session) <= Token(t, session)
    ensures forall c :: Issues(a, c) && c.session == session ==> Token(s, session) < c.token == Token(t, session)
    ensures session in s.ingestions ==> session in t.ingestions
    ensures session in s.ingestions && s.ingestions[session].status != Running && Token(t, session) == Token(s, session)
            ==> t.ingestions[session].status != Running
  {
    match a
    case Recover(now, batch, keys, jitters) => RecoverNeverLowersTokens(settings, s, now, keys, jitters);
    case Plan(now, season, calendar, active, freshId) =>
      assert t.ingestions == s.ingestions;
    case _ =>
  }

  /** Recovery leaves a session alone, or takes it out of the running state. */
  lemma {:induction false} RecoverLeavesOthers(settings: Settings, s: State, now: int, keys: seq<RowKey>,
                                               jitters: seq<real>,
                                               c: Claim)
    requires |jitters| == |keys| && Owns(s, c)
    ensures var t := RecoverRows(settings, s, now, keys, jitters); Owns(t, c) || Retired(t, c)
  {
    if keys != [] {
      var n := |keys| - 1;
      RecoverLeavesOthers(settings, s, now, keys[..n], jitters[..n], c);
    }
  }

  lemma PlanLeavesOwner(settings: Settings, s: State, a: Action, t: State, c: Claim)
    requires a.Plan? && Next(settings, s, a, t) && Owns(s, c)
    ensures Owns(t, c)
  {
    var eligible := EligibleSessions(settings, s, a.now, a.calendar, a.active.Some?);
    if eligible.Ok? {
      QueueRowsMeaning(s, a.now, a.active.GetOr(a.freshId), eligible.value);
    }
  }

  lemma AggregateLeavesOwner(s: State, now: int, j: JobId, earliest: Option<int>, c: Claim)
    requires j in s.jobs && Owns(s, c)
    ensures Owns(AggregateStep(s, now, j, earliest), c)
  {
    if j == c.job {
      assert HasRow(s, j, Running);
    }
  }

  /** A claim that owns its session keeps owning it, or is retired for good. */
  lemma OwnerStaysOrRetires(settings: Settings, s: State, a: Action, t: State, c: Claim)
    requires Next(settings, s, a, t) && Owns(s, c)
    ensures Owns(t, c) || Retired(t, c)
  {
    match a
    case Recover(now, batch, keys, jitters) => RecoverLeavesOthers(settings, s, now, keys, jitters, c);
    case Plan(_, _, _, _, _) => PlanLeavesOwner(settings, s, a, t, c);
    case Aggregate(now, job, earliest) => AggregateLeavesOwner(s, now, job, earliest, c);
    case ClaimNext(now, outcome) =>
      if outcome.Claimed? && outcome.claim.session != c.session {
        assert outcome.claim.Key() != c.Key();
      }
    case _ =>
  }

  lemma RetiredForGood(settings: Settings, s: State, a: Action, t: State, c: Claim)
    requires Next(settings, s, a, t) && Retired(s, c)
    ensures Retired(t, c)
  {
    TokensOnlyGrow(settings, s, a, t, c.session);
  }

  /** From the moment it is issued a claim owns its session or is retired. */
  lemma {:induction false} OwnsOrRetired(settings: Settings, states: seq<State>, trace: seq<Action>, i: nat, n: nat,
                                         c: Claim)
    requires settings.Valid() && Run(settings, states, trace)
    requires i < |trace| && Issues(trace[i], c) && i < n < |states|
    ensures Owns(states[n], c) || Retired(states[n], c)
    ensures n == i + 1 ==> Owns(states[n], c)
    decreases n
  {
    if n == i + 1 {
      assert Next(settings, states[i], trace[i], states[n]);
    } else {
      OwnsOrRetired(settings, states, trace, i, n - 1, c);
      if Owns(states[n - 1], c) {
        OwnerStaysOrRetires(settings, states[n - 1], trace[n - 1], states[n], c);
      } else {
        RetiredForGood(settings, states[n - 1], trace[n - 1], states[n], c);
      }
    }
  }

  /** Once an issued claim fails the ownership check, it fails it in every later state. */
  lemma {:induction false} OwnershipNeverReturns(settings: Settings, states: seq<State>, trace: seq<Action>,
                                                 i: nat, lost: nat, n: nat, c: Claim)
    requires settings.Valid() && Run(settings, states, trace)
    requires i < |trace| && Issues(trace[i], c) && i < lost <= n < |states| && !Owns(states[lost], c)
    ensures !Owns(states[n], c) && Retired(states[n], c)
    decreases n
  {
    if n == lost {
      OwnsOrRetired(settings, states, trace, i, n, c);
    } else {
      OwnershipNeverReturns(settings, states, trace, i, lost, n - 1, c);
      RetiredForGood(settings, states[n - 1], trace[n - 1], states[n], c);
    }
  }

  lemma RecoverRowEnds(settings: Settings, s: State, now: int, k: RowKey, jitter: real, c: Claim)
    requires Inv(settings, s) && Owns(s, c) && k in s.rows && s.rows[k].status == Running
    ensures var t := RecoverRow(settings, s, now, k, jitter);
            if k == c.Key() && Recoverable(settings, s, now, k) then Retired(t, c)
            else Owns(t, c) && t.rows[c.Key()] == s.rows[c.Key()] && t.ingestions[c.session] == s.ingestions[c.session]
  {
    if k.session == c.session {
      AtMostOneActiveRow(settings, s, k, c.Key());
    }
  }

  lemma RecoverRowKeepsRetired(settings: Settings, s: State, now: int, k: RowKey, jitter: real, c: Claim)
    requires Retired(s, c)
    ensures Retired(RecoverRow(settings, s, now, k, jitter), c)
  {
  }

  ghost predicate Untouched(s: State, t: State, c: Claim)
    requires Owns(s, c)
  {
    Owns(t, c) && t.rows[c.Key()] == s.rows[c.Key()] && t.ingestions[c.session] == s.ingestions[c.session]
  }

  lemma RecoverOneMore(settings: Settings, s: State, mid: State, now: int, k: RowKey, jitter: real, c: Claim)
    requires Inv(settings, s) && Inv(settings, mid) && Owns(s, c) && StaleRow(settings, s, now, k)
    requires k in mid.rows && mid.rows[k] == s.rows[k]
    requires Retired(mid, c) || Untouched(s, mid, c)
    ensures var t := RecoverRow(settings, mid, now, k, jitter);
            if Retired(mid, c) || k == c.Key() then Retired(t, c) else Untouched(s, t, c)
  {
    if Retired(mid, c) {
      RecoverRowKeepsRetired(settings, mid, now, k, jitter, c);
    } else {
      RecoverRowEnds(settings, mid, now, k, jitter, c);
      StaleRowIsRecoverable(settings, s, now, k);
    }
  }

  ghost predicate StaleKeys(settings: Settings, s: State, now: int, keys: seq<RowKey>) {
    && (forall i :: 0 <= i < |keys| ==> StaleRow(settings, s, now, keys[i]))
    && (forall i, j :: 0 <= i < j < |keys| ==> keys[i] != keys[j])
  }

  lemma StalePrefix(settings: Settings, s: State, now: int, keys: seq<RowKey>)
    requires keys != [] && StaleKeys(settings, s, now, keys)
    ensures var n := |keys| - 1;
            && StaleKeys(settings, s, now, keys[..n])
            && keys[n] !in keys[..n]
            && (forall k :: k in keys <==> k in keys[..n] || k == keys[n])
  {
    assert keys == keys[..|keys| - 1] + [keys[|keys| - 1]];
  }

  lemma {:induction false} RecoverEndsBatch(settings: Settings, s: State, now: int, keys: seq<RowKey>,
                                            jitters: seq<real>,
                                            c: Claim)
    requires settings.Valid() && Inv(settings, s) && |jitters| == |keys| && Owns(s, c)
    requires StaleKeys(settings, s, now, keys)
    ensures var t := RecoverRows(settings, s, now, keys, jitters);
            if c.Key() in keys then Retired(t, c) else Untouched(s, t, c)
  {
    if keys != [] {
      var n := |keys| - 1;
      StalePrefix(settings, s, now, keys);
      RecoverKeeps(settings, s, now, keys[..n], jitters[..n]);
      RecoverEndsBatch(settings, s, now, keys[..n], jitters[..n], c);
      RecoverOneMore(settings, s, RecoverRows(settings, s, now, keys[..n], jitters[..n]), now, keys[n], jitters[n], c);
    }
  }

  /** Failing, completing and being recovered each end the ownership they act on. */
  lemma EndsOwnership(settings: Settings, s: State, a: Action, t: State, c: Claim)
    requires settings.Valid() && Inv(settings, s) && Next(settings, s, a, t) && Owns(s, c)
    requires (a.Fail? && a.claim == c) || (a.Complete? && a.claim == c) || (a.Recover? && c.Key() in a.keys)
    ensures !Owns(t, c)
  {
    if a.Recover? {
      RecoverEndsBatch(settings, s, a.now, a.keys, a.jitters, c);
    }
  }

  /** Main result: a claim that was failed, completed or recovered never passes the ownership check again. */
  lemma EndedClaimIsDead(settings: Settings, states: seq<State>, trace: seq<Action>, i: nat, e: nat, n: nat, c: Claim)
    requires settings.Valid() && Run(settings, states, trace)
    requires i < e < n < |states| && Issues(trace[i], c)
    requires var a := trace[e];
             (a.Fail? && a.claim == c) || (a.Complete? && a.claim == c) || (a.Recover? && c.Key() in a.keys)
    ensures !Owns(states[n], c)
  {
    Reachable(settings, states, trace, e);
    if Owns(states[e], c) {
      EndsOwnership(settings, states[e], trace[e], states[e + 1], c);
      OwnershipNeverReturns(settings, states, trace, i, e + 1, n, c);
    } else {
      OwnershipNeverReturns(settings, states, trace, i, e, n, c);
    }
  }

  // ---------------------------------------------------------------- how a claim is lost, and how it is kept

  /** Its own worker failing or completing the claim. */
  predicate EndedBy(a: Action, c: Claim) {
    (a.Fail? || a.Complete?) && a.claim.(claimedAt := 0) == c.(claimedAt := 0)
  }

  predicate Recovers(a: Action, c: Claim) {
    a.Recover? && c.Key() in a.keys
  }

  lemma OnlyOwner(settings: Settings, s: State, c: Claim, d: Claim)
    requires Inv(settings, s) && Owns(s, c)
    ensures Owns(s, d) && d.session == c.session ==> d.(claimedAt := 0) == c.(claimedAt := 0)
  {
    if Owns(s, d) && d.session == c.session {
      OneOwnerPerSession(settings, s, d, c);
    }
  }

  lemma OthersEndOthers(settings: Settings, s: State, a: Action, t: State, c: Claim)
    requires Inv(settings, s) && Next(settings, s, a, t) && Owns(s, c) && !EndedBy(a, c) && (a.Fail? || a.Complete?)
    ensures Untouched(s, t, c)
  {
    OnlyOwner(settings, s, c, a.claim);
  }

  /** One transaction, not by its own worker ending it: the claim is lost exactly if a recovery picks its row. */
  lemma OwnerStep(settings: Settings, s: State, a: Action, t: State, c: Claim)
    requires settings.Valid() && Inv(settings, s) && Next(settings, s, a, t) && Owns(s, c) && !EndedBy(a, c)
    ensures Owns(t, c) <==> !Recovers(a, c)
  {
    match a
    case Recover(now, batch, keys, jitters) => RecoverEndsBatch(settings, s, now, keys, jitters, c);
    case Plan(_, _, _, _, _) => PlanLeavesOwner(settings, s, a, t, c);
    case Aggregate(now, job, earliest) => AggregateLeavesOwner(s, now, job, earliest, c);
    case Fail(_, _, _, _) => OthersEndOthers(settings, s, a, t, c);
    case Complete(_, _) => OthersEndOthers(settings, s, a, t, c);
    case _ => OwnerStaysOrRetires(settings, s, a, t, c);
  }

  ghost predicate NotEndedBetween(trace: seq<Action>, i: nat, n: nat, c: Claim)
    requires n <= |trace|
  {
    forall k {:trigger trace[k]} :: i < k < n ==> !EndedBy(trace[k], c)
  }

  ghost predicate RecoveredBetween(trace: seq<Action>, i: nat, n: nat, c: Claim)
    requires n <= |trace|
  {
    exists k :: i < k < n && Recovers(trace[k], c)
  }

  lemma RecoveredOneMore(trace: seq<Action>, i: nat, n: nat, c: Claim)
    requires i < n < |trace|
    ensures RecoveredBetween(trace, i, n + 1, c) <==> RecoveredBetween(trace, i, n, c) || Recovers(trace[n], c)
  {
  }

  lemma IssuedClaimOwns(settings: Settings, s: State, a: Action, t: State, c: Claim)
    requires Next(settings, s, a, t) && Issues(a, c)
    ensures Owns(t, c) && t.rows[c.Key()].heartbeatAt == Some(a.now)
  {
  }

  /**
   Main result: a worker that has not ended its claim has lost it if and only if a recovery picked its row in between.
   */
  lemma {:induction false} LostExactlyByRecovery(settings: Settings, states: seq<State>, trace: seq<Action>, i: nat,
                                                 n: nat,
                                                 c: Claim)
    requires settings.Valid() && Run(settings, states, trace)
    requires i < n <= |trace| && Issues(trace[i], c) && NotEndedBetween(trace, i, n, c)
    ensures Owns(states[n], c) <==> !RecoveredBetween(trace, i, n, c)
    decreases n
  {
    if n == i + 1 {
      IssuedClaimOwns(settings, states[i], trace[i], states[n], c);
    } else {
      LostExactlyByRecovery(settings, states, trace, i, n - 1, c);
      RecoveredOneMore(trace, i, n - 1, c);
      if Owns(states[n - 1], c) {
        Reachable(settings, states, trace, n - 1);
        OwnerStep(settings, states[n - 1], trace[n - 1], states[n], c);
      } else {
        OwnershipNeverReturns(settings, states, trace, i, n - 1, n, c);
      }
    }
  }

  /** The claim itself, or its worker's latest heartbeat after it. */
  function LastBeat(trace: seq<Action>, i: nat, n: nat, c: Claim): int
    requires i < n <= |trace|
  {
    if n == i + 1 then trace[i].now
    else if trace[n - 1] == Heartbeat(trace[n - 1].now, c) then trace[n - 1].now
    else LastBeat(trace, i, n - 1, c)
  }

  lemma OwnerBeats(settings: Settings, s: State, a: Action, t: State, c: Claim)
    requires settings.Valid() && Inv(settings, s) && Next(settings, s, a, t) && Owns(s, c) && Owns(t, c)
             && !EndedBy(a, c)
    ensures t.rows[c.Key()].heartbeatAt == s.rows[c.Key()].heartbeatAt || t.rows[c.Key()].heartbeatAt == Some(a.now)
    ensures a == Heartbeat(a.now, c) ==> t.rows[c.Key()].heartbeatAt == Some(a.now)
  {
    match a
    case Recover(now, batch, keys, jitters) => RecoverEndsBatch(settings, s, now, keys, jitters, c);
    case Plan(now, season, calendar, active, freshId) =>
      EligibleSessionsMeaning(settings, s, now, season, calendar, active.Some?);
      QueueRowsMeaning(s, now, active.GetOr(freshId), EligibleSessions(settings, s, now, calendar, active.Some?).value);
    case Fail(_, _, _, _) => OthersEndOthers(settings, s, a, t, c);
    case Complete(_, _) => OthersEndOthers(settings, s, a, t, c);
    case ClaimNext(_, outcome) =>
      assert outcome.Claimed? ==> outcome.claim.Key() != c.Key();
    case _ =>
  }

  /** Every recovery in between comes within the lease of the worker's latest beat. */
  ghost predicate BeatsInTime(settings: Settings, trace: seq<Action>, i: nat, n: nat, c: Claim)
    requires n <= |trace|
  {
    forall k {:trigger trace[k]} :: i < k < n && trace[k].Recover? ==>
      trace[k].now <= LastBeat(trace, i, k, c) + settings.LeaseTimeout()
  }

  ghost predicate BeatenSince(s: State, c: Claim, beat: int) {
    && Owns(s, c) && beat <= s.clock
    && s.rows[c.Key()].heartbeatAt.Some? && beat <= s.rows[c.Key()].heartbeatAt.value
  }

  lemma StepKeepsLease(settings: Settings, s: State, a: Action, t: State, c: Claim, beat: int)
    requires settings.Valid() && Inv(settings, s) && Next(settings, s, a, t) && !EndedBy(a, c)
             && BeatenSince(s, c, beat)
    requires a.Recover? ==> a.now <= beat + settings.LeaseTimeout()
    ensures BeatenSince(t, c, if a == Heartbeat(a.now, c) then a.now else beat)
  {
    OwnerStep(settings, s, a, t, c);
    OwnerBeats(settings, s, a, t, c);
    ClockNeverGoesBack(settings, s, a, t);
  }

  lemma ClockNeverGoesBack(settings: Settings, s: State, a: Action, t: State)
    requires Next(settings, s, a, t)
    ensures s.clock <= a.now == t.clock
  {
  }

  lemma {:induction false} BeatsKeepLease(settings: Settings, states: seq<State>, trace: seq<Action>, i: nat, n: nat,
                                          c: Claim)
    requires settings.Valid() && Run(settings, states, trace)
    requires i < n <= |trace| && Issues(trace[i], c) && NotEndedBetween(trace, i, n, c)
             && BeatsInTime(settings, trace, i, n, c)
    ensures BeatenSince(states[n], c, LastBeat(trace, i, n, c))
    decreases n
  {
    if n == i + 1 {
      IssuedClaimOwns(settings, states[i], trace[i], states[n], c);
      ClockNeverGoesBack(settings, states[i], trace[i], states[n]);
    } else {
      BeatsKeepLease(settings, states, trace, i, n - 1, c);
      Reachable(settings, states, trace, n - 1);
      StepKeepsLease(settings, states[n - 1], trace[n - 1], states[n], c, LastBeat(trace, i, n - 1, c));
    }
  }

  /** A worker whose latest beat is within the lease whenever recovery looks never loses its session. */
  lemma BeatingKeepsTheSession(settings: Settings, states: seq<State>, trace: seq<Action>, i: nat, n: nat, c: Claim)
    requires settings.Valid() && Run(settings, states, trace)
    requires i < n <= |trace| && Issues(trace[i], c) && NotEndedBetween(trace, i, n, c)
             && BeatsInTime(settings, trace, i, n, c)
    ensures Owns(states[n], c) && !RecoveredBetween(trace, i, n, c)
  {
    BeatsKeepLease(settings, states, trace, i, n, c);
    LostExactlyByRecovery(settings, states, trace, i, n, c);
  }

  /** Claims of one session are issued with strictly increasing tokens over any run. */
  lemma IssuedTokensIncrease(settings: Settings, states: seq<State>, trace: seq<Action>, i: nat, j: nat, c: Claim,
                             d: Claim)
    requires settings.Valid() && Run(settings, states, trace)
    requires i < j < |trace| && Issues(trace[i], c) && Issues(trace[j], d) && c.session == d.session
    ensures c.token < d.token
  {
    OwnsOrRetired(settings, states, trace, i, j, c);
    TokensOnlyGrow(settings, states[j], trace[j], states[j + 1], c.session);
  }

  /** In every reachable state at most one of all the claims ever issued for a session passes the check. */
  lemma AtMostOneIssuedClaimOwns(settings: Settings, states: seq<State>, trace: seq<Action>, i: nat, j: nat, n: nat,
                                 c: Claim, d: Claim)
    requires settings.Valid() && Run(settings, states, trace)
    requires i < n < |states| && j < n && Issues(trace[i], c) && Issues(trace[j], d) && c.session == d.session
    requires Owns(states[n], c) && Owns(states[n], d)
    ensures i == j
  {
    Reachable(settings, states, trace, n);
    OneOwnerPerSession(settings, states[n], c, d);
    if i < j {
      IssuedTokensIncrease(settings, states, trace, i, j, c, d);
    } else if j < i {
      IssuedTokensIncrease(settings, states, trace, j, i, d, c);
    }
  }

  /** The ownership check without its session token. */
  predicate PassesJobCheckAlone(s: State, c: Claim) {
    && c.Key() in s.rows && s.rows[c.Key()].status == Running && s.rows[c.Key()].attemptCount == c.jobAttempt
    && c.job in s.jobs && s.jobs[c.job].status == Running
    && c.session in s.ingestions && s.ingestions[c.session].source == FastF1Archive
    && s.ingestions[c.session].status == Running
  }

  /**
   The job attempt is no fence: after a refunded pause the next claim of the row carries the same job attempt, so
   the abandoned claim would still pass a check that looked at the job alone. Only the token tells them apart.
   */
  lemma RefundRepeatsJobAttempt(settings: Settings, s: State, now: int, c: Claim, failure: Failure, jitter: real,
                                later: int)
    requires Owns(s, c) && failure.Pauses()
    ensures var paused := FailStep(settings, s, now, c, failure, jitter);
            var again := ClaimFor(paused, later, c.Key());
            var reclaimed := ClaimRow(settings, paused, later, c.Key());
            && again.jobAttempt == c.jobAttempt
            && again.token == c.token + 1
            && Owns(reclaimed, again)
            && PassesJobCheckAlone(reclaimed, c)
            && !Owns(reclaimed, c)
  {
  }

  // ---------------------------------------------------------------- attempt accounting

  ghost function ClaimsOf(trace: seq<Action>, n: nat, k: RowKey): nat
    requires n <= |trace|
  {
    if n == 0 then 0
    else ClaimsOf(trace, n - 1, k)
         + if trace[n - 1].ClaimNext? && trace[n - 1].outcome.Claimed? && trace[n - 1].outcome.claim.Key() == k then 1
           else 0
  }

  ghost predicate IsRefund(s: State, a: Action, k: RowKey) {
    a.Fail? && a.failure.Pauses() && a.claim.Key() == k && Owns(s, a.claim)
  }

  ghost function RefundsOf(states: seq<State>, trace: seq<Action>, n: nat, k: RowKey): nat
    requires n <= |trace| <= |states|
  {
    if n == 0 then 0
    else RefundsOf(states, trace, n - 1, k) + if IsRefund(states[n - 1], trace[n - 1], k) then 1 else 0
  }

  lemma {:induction false} RecoverKeepsAttempts(settings: Settings, s: State, now: int, keys: seq<RowKey>,
                                                jitters: seq<real>)
    requires |jitters| == |keys|
    ensures var t := RecoverRows(settings, s, now, keys, jitters);
            && t.rows.Keys == s.rows.Keys
            && forall k :: k in s.rows ==> t.rows[k].attemptCount == s.rows[k].attemptCount
  {
    if keys != [] {
      RecoverKeepsAttempts(settings, s, now, keys[..|keys| - 1], jitters[..|keys| - 1]);
    }
  }

  function Attempts(s: State, k: RowKey): int {
    if k in s.rows then s.rows[k].attemptCount else 0
  }

  lemma StepAccountsForAttempts(settings: Settings, s: State, a: Action, t: State, k: RowKey)
    requires Next(settings, s, a, t)
    ensures Attempts(t, k) == Attempts(s, k)
              + (if a.ClaimNext? && a.outcome.Claimed? && a.outcome.claim.Key() == k then 1 else 0)
              - (if IsRefund(s, a, k) then 1 else 0)
  {
    match a
    case Recover(now, batch, keys, jitters) => RecoverKeepsAttempts(settings, s, now, keys, jitters);
    case Plan(now, season, calendar, active, freshId) =>
      var eligible := EligibleSessions(settings, s, now, calendar, active.Some?);
      if eligible.Ok? {
        QueueRowsMeaning(s, now, active.GetOr(freshId), eligible.value);
      }
    case _ =>
  }

  /** Over any run a row's attempt count is exactly its claims less its refunds. */
  lemma {:induction false} AttemptsAccountedFor(settings: Settings, states: seq<State>, trace: seq<Action>, n: nat,
                                                k: RowKey)
    requires settings.Valid() && Run(settings, states, trace) && n <= |trace|
    ensures Attempts(states[n], k) == ClaimsOf(trace, n, k) - RefundsOf(states, trace, n, k)
    decreases n
  {
    if n != 0 {
      AttemptsAccountedFor(settings, states, trace, n - 1, k);
      StepAccountsForAttempts(settings, states[n - 1], trace[n - 1], states[n], k);
    }
  }

  /** A row is claimed at most `maxAttempts` times more often than it is refunded, and never refunded unclaimed. */
  lemma ClaimsBoundedByAttempts(settings: Settings, states: seq<State>, trace: seq<Action>, n: nat, k: RowKey)
    requires settings.Valid() && Run(settings, states, trace) && n <= |trace|
    ensures RefundsOf(states, trace, n, k) <= ClaimsOf(trace, n, k)
            <= settings.maxAttempts + RefundsOf(states, trace, n, k)
  {
    AttemptsAccountedFor(settings, states, trace, n, k);
    Reachable(settings, states, trace, n);
  }

  // ---------------------------------------------------------------- the queue always has a head

  lemma QueueOrderTransitive(rows: map<RowKey, JobSession>, a: RowKey, b: RowKey, c: RowKey)
    requires a in rows && b in rows && c in rows && ClaimsBefore(rows, a, b) && ClaimsBefore(rows, b, c)
    ensures ClaimsBefore(rows, a, c)
  {
  }

  lemma QueueOrderTotal(rows: map<RowKey, JobSession>, a: RowKey, b: RowKey)
    requires a in rows && b in rows && a != b && !ClaimsBefore(rows, a, b)
    ensures ClaimsBefore(rows, b, a)
  {
    assert a.job != b.job || a.session != b.session;
  }

  lemma {:induction false} HeadExists(rows: map<RowKey, JobSession>, candidates: set<RowKey>) returns (head: RowKey)
    requires candidates != {} && forall k :: k in candidates ==> k in rows
    ensures head in candidates
    ensures forall k :: k in candidates && k != head ==> ClaimsBefore(rows, head, k)
    decreases candidates
  {
    var pick :| pick in candidates;
    var rest := candidates - {pick};
    if rest == {} {
      assert candidates == {pick};
      head := pick;
    } else {
      var best := HeadExists(rows, rest);
      head := if ClaimsBefore(rows, pick, best) then pick else best;
      forall k | k in candidates && k != head ensures ClaimsBefore(rows, head, k) {
        assert k == pick || k in rest;
        if head == pick && k != best {
          QueueOrderTransitive(rows, pick, best, k);
        } else if head == best && k == pick {
          QueueOrderTotal(rows, pick, best);
        }
      }
    }
  }

  /** Whenever something is claimable there is exactly one row at the head of the queue. */
  lemma QueueHasOneHead(settings: Settings, s: State, now: int)
    requires exists k :: Claimable(settings, s, now, k)
    ensures exists k :: IsNextClaim(settings, s, now, k)
    ensures forall a, b :: IsNextClaim(settings, s, now, a) && IsNextClaim(settings, s, now, b) ==> a == b
  {
    var candidates := set k | k in s.rows && Claimable(settings, s, now, k);
    var k :| Claimable(settings, s, now, k);
    assert k in candidates;
    var head := HeadExists(s.rows, candidates);
    assert IsNextClaim(settings, s, now, head);
  }

  ghost predicate CanClaim(settings: Settings, s: State, now: int) {
    s.gate.nextRequestAt <= now && exists k :: Claimable(settings, s, now, k)
  }

  /** A claim attempt hands out the head of the queue whenever the gate is open and something is claimable. */
  lemma ClaimSucceedsExactlyWhenPossible(settings: Settings, s: State, now: int, outcome: ClaimOutcome, t: State)
    requires Inv(settings, s) && ClaimStep(settings, s, now, outcome, t)
    ensures outcome.Claimed? <==> CanClaim(settings, s, now)
  {
    ClaimNeverConflicts(settings, s, now, outcome, t);
  }

  /** No pending row is ever stranded: once its retry instant has passed it can be claimed. */
  lemma NoPendingRowStranded(settings: Settings, s: State, now: int, k: RowKey)
    requires Inv(settings, s) && k in s.rows && s.rows[k].status == Pending
    ensures Claimable(settings, s, now, k) <==> (s.rows[k].nextRetryAt.Some? ==> s.rows[k].nextRetryAt.value <= now)
  {
    assert s.rows[k].status.Active();
  }
}
