/**
 Over any run a session is ingested at most once, plus once per correction checkpoint for each scheduled end that the
 calendar gives it.
 */
module ArchiveSettles {
  import opened Wrappers
  import opened RuntimePolicy
  import opened ControlPlane
  import opened ControlPlaneInvariant
  import opened Fencing
  import Freshness = FreshnessPolicy

  predicate CompletesSession(s: State, a: Action, session: SessionId) {
    a.Complete? && a.claim.session == session && Owns(s, a.claim)
  }

  ghost function CompletionsOf(states: seq<State>, trace: seq<Action>, n: nat, session: SessionId): nat
    requires n <= |trace| <= |states|
  {
    if n == 0 then 0
    else CompletionsOf(states, trace, n - 1, session)
         + if CompletesSession(states[n - 1], trace[n - 1], session) then 1 else 0
  }

  ghost predicate HasActive(s: State, session: SessionId) {
    exists k :: k in s.rows && k.session == session && s.rows[k].status.Active()
  }

  function EndOf(s: State, session: SessionId): Option<int> {
    if session in s.races then s.races[session].scheduledEnd else None
  }

  ghost predicate DueNow(settings: Settings, s: State, session: SessionId) {
    EndOf(s, session).Some? && Freshness.Due(EndOf(s, session).value, CompletedAt(s, session), s.clock, settings)
  }

  /** Work that was queued while due may no longer be due once the end has moved; it is still done once. */
  ghost function Owed(settings: Settings, s: State, session: SessionId): nat {
    if HasActive(s, session) && !DueNow(settings, s, session) then 1 else 0
  }

  /** How many more successful ingestions the session can see under its present end; without one, the first at most. */
  ghost function Left(settings: Settings, s: State, session: SessionId): nat {
    (match EndOf(s, session)
     case None => if CompletedAt(s, session).None? then 1 else 0
     case Some(end) => Freshness.Remaining(end, CompletedAt(s, session), settings))
    + Owed(settings, s, session)
  }

  predicate MovesEnd(s: State, t: State, session: SessionId) {
    EndOf(t, session) != EndOf(s, session)
  }

  function PerEnd(settings: Settings): nat {
    |settings.correctionCheckpoints|
  }

  lemma {:induction false} RecoverKeepsCompletions(settings: Settings, s: State, now: int, keys: seq<RowKey>,
                                                   jitters: seq<real>,
                                                   session: SessionId)
    requires |jitters| == |keys| && forall i :: 0 <= i < |keys| ==>
             keys[i] in s.rows && s.rows[keys[i]].status == Running
    ensures var t := RecoverRows(settings, s, now, keys, jitters);
            && CompletedAt(t, session) == CompletedAt(s, session) && t.clock == s.clock && t.races == s.races
            && t.rows.Keys == s.rows.Keys
            && (forall k :: k in s.rows && t.rows[k].status.Active() ==> s.rows[k].status.Active())
  {
    if keys != [] {
      RecoverKeepsCompletions(settings, s, now, keys[..|keys| - 1], jitters[..|keys| - 1], session);
    }
  }

  lemma OnlyPlanningQueues(settings: Settings, s: State, a: Action, t: State)
    requires Next(settings, s, a, t) && !a.Plan?
    ensures forall k :: k in t.rows && t.rows[k].status.Active() ==> k in s.rows && s.rows[k].status.Active()
  {
    match a
    case Recover(now, batch, keys, jitters) => RecoverKeepsCompletions(settings, s, now, keys, jitters, 0);
    case _ =>
  }

  lemma PlanLeavesCompletion(settings: Settings, s: State, a: Action, t: State, session: SessionId)
    requires Next(settings, s, a, t) && (a.Plan? || a.ClaimNext? || a.Refresh?)
    ensures CompletedAt(t, session) == CompletedAt(s, session)
    ensures (a.Refresh? || t.races == s.races) && s.clock <= t.clock
  {
  }

  lemma HolderLeavesCompletion(settings: Settings, s: State, a: Action, t: State, session: SessionId)
    requires Next(settings, s, a, t) && !CompletesSession(s, a, session)
    requires a.Heartbeat? || a.Fail? || a.Complete?
    ensures CompletedAt(t, session) == CompletedAt(s, session)
    ensures t.races == s.races && s.clock <= t.clock
  {
  }

  /** Only a completion changes when a session was completed, and only a refresh moves its end. */
  lemma OnlyCompletionCompletes(settings: Settings, s: State, a: Action, t: State, session: SessionId)
    requires Next(settings, s, a, t) && !CompletesSession(s, a, session)
    ensures CompletedAt(t, session) == CompletedAt(s, session)
    ensures (a.Refresh? || t.races == s.races) && s.clock <= t.clock
  {
    if a.Recover? {
      RecoverKeepsCompletions(settings, s, a.now, a.keys, a.jitters, session);
    } else if a.Plan? || a.ClaimNext? || a.Refresh? {
      PlanLeavesCompletion(settings, s, a, t, session);
    } else if a.Heartbeat? || a.Fail? || a.Complete? {
      HolderLeavesCompletion(settings, s, a, t, session);
    }
  }

  /** While the end and the completion stand, a due session stays due. */
  lemma DueStaysDue(settings: Settings, s: State, t: State, session: SessionId)
    requires DueNow(settings, s, session) && s.clock <= t.clock
    requires CompletedAt(t, session) == CompletedAt(s, session) && !MovesEnd(s, t, session)
    ensures DueNow(settings, t, session)
  {
  }

  lemma PlanQueuesOnlyDue(settings: Settings, s: State, a: Action, t: State, session: SessionId)
    requires a.Plan? && Inv(settings, s) && Next(settings, s, a, t)
    requires HasActive(t, session) && !HasActive(s, session)
    ensures DueNow(settings, t, session)
  {
    EligibleSessionsMeaning(settings, s, a.now, a.season, a.calendar, a.active.Some?);
    var eligible := EligibleSessions(settings, s, a.now, a.calendar, a.active.Some?).value;
    QueueRowsMeaning(s, a.now, a.active.GetOr(a.freshId), eligible);
    var k :| k in t.rows && k.session == session && t.rows[k].status.Active();
    assert k !in s.rows;
    assert session in eligible;
  }

  lemma CompletionCosts(settings: Settings, s: State, a: Action, t: State, session: SessionId)
    requires settings.Valid() && Inv(settings, s) && Next(settings, s, a, t) && CompletesSession(s, a, session)
    ensures Left(settings, t, session) + 1 <= Left(settings, s, session) && !MovesEnd(s, t, session)
  {
    forall k | k in t.rows && k.session == session && t.rows[k].status.Active() ensures false {
      AtMostOneActiveRow(settings, s, k, a.claim.Key());
    }
    assert s.rows[a.claim.Key()].status.Active();
    assert s.ingestions[session].source == FastF1Archive;
    var end := EndOf(s, session);
    if DueNow(settings, s, session) {
      Freshness.CompletionUsesOneUp(end.value, CompletedAt(s, session), s.clock, a.now, settings);
    } else if end.Some? {
      Freshness.LaterCompletionNeedsNoMore(end.value, CompletedAt(s, session), a.now, settings);
    }
  }

  lemma OthersSpendNothing(settings: Settings, s: State, a: Action, t: State, session: SessionId)
    requires settings.Valid() && Inv(settings, s) && Next(settings, s, a, t)
    requires !CompletesSession(s, a, session) && !MovesEnd(s, t, session)
    ensures Left(settings, t, session) <= Left(settings, s, session)
  {
    OnlyCompletionCompletes(settings, s, a, t, session);
    if DueNow(settings, s, session) {
      DueStaysDue(settings, s, t, session);
    }
    if HasActive(t, session) && !HasActive(s, session) {
      if a.Plan? {
        PlanQueuesOnlyDue(settings, s, a, t, session);
      } else {
        OnlyPlanningQueues(settings, s, a, t);
      }
    }
  }

  /** The calendar gives the session an end that it did not have just before. */
  predicate GivesEnd(s: State, t: State, session: SessionId) {
    EndOf(t, session).Some? && EndOf(t, session) != EndOf(s, session)
  }

  /**
   One transaction: what a session can still see shrinks with each completion, and grows only when it is given an end.
   */
  lemma StepSpends(settings: Settings, s: State, a: Action, t: State, session: SessionId)
    requires settings.Valid() && Inv(settings, s) && Next(settings, s, a, t)
    ensures Left(settings, t, session) + (if CompletesSession(s, a, session) then 1 else 0)
            <= Left(settings, s, session) + if GivesEnd(s, t, session) then PerEnd(settings) else 0
  {
    if CompletesSession(s, a, session) {
      CompletionCosts(settings, s, a, t, session);
    } else if MovesEnd(s, t, session) {
      OnlyCompletionCompletes(settings, s, a, t, session);
      assert a.Refresh?;
      if GivesEnd(s, t, session) {
        NewEndAllowsOneRound(settings, s, a, t, session);
      } else {
        LostEndAllowsNothing(settings, s, a, t, session);
      }
    } else {
      OthersSpendNothing(settings, s, a, t, session);
    }
  }

  lemma NewEndAllowsOneRound(settings: Settings, s: State, a: Action, t: State, session: SessionId)
    requires settings.Valid() && Inv(settings, s) && Next(settings, s, a, t) && a.Refresh? && GivesEnd(s, t, session)
    ensures Left(settings, t, session) <= Left(settings, s, session) + PerEnd(settings)
  {
    assert HasActive(t, session) == HasActive(s, session);
    Freshness.RemainingAtMostAll(EndOf(t, session).value, CompletedAt(t, session), settings);
    DueNeedsOne(settings, s, session);
  }

  /** Work that is queued and due is still counted apart from the first ingestion. */
  lemma DueNeedsOne(settings: Settings, s: State, session: SessionId)
    requires settings.Valid() && Inv(settings, s)
    ensures HasActive(s, session) && DueNow(settings, s, session) ==>
              Left(settings, s, session) >= 1 + if CompletedAt(s, session).None? then 1 else 0
  {
    if HasActive(s, session) && DueNow(settings, s, session) {
      var k :| k in s.rows && k.session == session && s.rows[k].status.Active();
      assert !ForeignIngestion(s, session);
      Freshness.CompletionUsesOneUp(EndOf(s, session).value, CompletedAt(s, session), s.clock, s.clock, settings);
    }
  }

  /** A session whose end disappears keeps at most the work that is queued for it, which was counted before. */
  lemma LostEndAllowsNothing(settings: Settings, s: State, a: Action, t: State, session: SessionId)
    requires settings.Valid() && Inv(settings, s) && Next(settings, s, a, t) && a.Refresh? && EndOf(t, session).None?
    ensures Left(settings, t, session) <= Left(settings, s, session)
  {
    assert HasActive(t, session) == HasActive(s, session);
    DueNeedsOne(settings, s, session);
  }

  /**
   How many ends the session has been given up to state `n`: the one it starts with, if any, and each new one since.
   */
  ghost function EndsGiven(states: seq<State>, n: nat, session: SessionId): nat
    requires n < |states|
  {
    if n == 0 then if EndOf(states[0], session).Some? then 1 else 0
    else EndsGiven(states, n - 1, session) + if GivesEnd(states[n - 1], states[n], session) then 1 else 0
  }

  /** The first ingestion, and one round of corrections for each end given. */
  ghost function Allowed(settings: Settings, states: seq<State>, n: nat, session: SessionId): (r: nat)
    requires n < |states|
    ensures r == 1 + PerEnd(settings) * EndsGiven(states, n, session)
  {
    if n == 0 then 1 + if EndOf(states[0], session).Some? then PerEnd(settings) else 0
    else
      OneMoreFactor(PerEnd(settings), EndsGiven(states, n - 1, session), EndsGiven(states, n, session));
      Allowed(settings, states, n - 1, session)
      + if GivesEnd(states[n - 1], states[n], session) then PerEnd(settings) else 0
  }

  lemma OneMoreFactor(a: nat, b: nat, c: nat)
    requires c == b || c == b + 1
    ensures a * c == a * b + if c == b then 0 else a
  {
  }

  lemma NothingOwedAtFirst(settings: Settings, s: State, session: SessionId)
    requires Init(s)
    ensures Left(settings, s, session) <= 1 + if EndOf(s, session).Some? then PerEnd(settings) else 0
  {
    var end := EndOf(s, session);
    if end.Some? {
      Freshness.RemainingAtMostAll(end.value, CompletedAt(s, session), settings);
    }
  }

  lemma RunStepSpends(settings: Settings, states: seq<State>, trace: seq<Action>, i: nat, session: SessionId)
    requires settings.Valid() && Run(settings, states, trace) && i < |trace|
    ensures Left(settings, states[i + 1], session) + (if CompletesSession(states[i], trace[i], session) then 1 else 0)
            <= Left(settings, states[i], session)
               + if GivesEnd(states[i], states[i + 1], session) then PerEnd(settings) else 0
  {
    Reachable(settings, states, trace, i);
    StepSpends(settings, states[i], trace[i], states[i + 1], session);
  }

  lemma {:induction false} SpentAndLeft(settings: Settings, states: seq<State>, trace: seq<Action>, n: nat,
                                        session: SessionId)
    requires settings.Valid() && Run(settings, states, trace) && n <= |trace|
    ensures CompletionsOf(states, trace, n, session) + Left(settings, states[n], session)
            <= Allowed(settings, states, n, session)
    decreases n
  {
    if n == 0 {
      NothingOwedAtFirst(settings, states[0], session);
    } else {
      SpentAndLeft(settings, states, trace, n - 1, session);
      RunStepSpends(settings, states, trace, n - 1, session);
    }
  }

  /** A session that has never had an end is never queued. */
  lemma NothingToDo(settings: Settings, s: State, a: Action, t: State, session: SessionId)
    requires Inv(settings, s) && Next(settings, s, a, t) && !HasActive(s, session) && EndOf(t, session).None?
    ensures !HasActive(t, session) && !CompletesSession(s, a, session)
  {
    if HasActive(t, session) {
      if a.Plan? {
        PlanQueuesOnlyDue(settings, s, a, t, session);
      } else {
        OnlyPlanningQueues(settings, s, a, t);
      }
    }
  }

  lemma {:induction false} WithoutEndNothing(settings: Settings, states: seq<State>, trace: seq<Action>, n: nat,
                                             session: SessionId)
    requires settings.Valid() && Run(settings, states, trace) && n <= |trace| && EndsGiven(states, n, session) == 0
    ensures CompletionsOf(states, trace, n, session) == 0
    ensures EndOf(states[n], session).None? && !HasActive(states[n], session)
    decreases n
  {
    if n != 0 {
      WithoutEndNothing(settings, states, trace, n - 1, session);
      Reachable(settings, states, trace, n - 1);
      NothingToDo(settings, states[n - 1], trace[n - 1], states[n], session);
    }
  }

  /**
   Main result: in every run a session is ingested at most once, plus once per correction checkpoint for each end that
   the calendar has given it; a session without an end is never ingested.
   */
  lemma SessionSettles(settings: Settings, states: seq<State>, trace: seq<Action>, session: SessionId)
    requires settings.Valid() && Run(settings, states, trace)
    ensures CompletionsOf(states, trace, |trace|, session)
            <= 1 + |settings.correctionCheckpoints| * EndsGiven(states, |trace|, session)
    ensures EndsGiven(states, |trace|, session) == 0 ==> CompletionsOf(states, trace, |trace|, session) == 0
  {
    SpentAndLeft(settings, states, trace, |trace|, session);
    if EndsGiven(states, |trace|, session) == 0 {
      WithoutEndNothing(settings, states, trace, |trace|, session);
    }
  }

  /** No end that the session has is ever changed; it may get one during the run. */
  ghost predicate EndStands(states: seq<State>, n: nat, session: SessionId)
    requires n < |states|
  {
    forall i {:trigger states[i]} :: 0 <= i < n && EndOf(states[i], session).Some? ==>
      EndOf(states[i + 1], session) == EndOf(states[i], session)
  }

  /** Once its end stands, a session is ingested at most once, plus once per correction checkpoint. */
  lemma FixedScheduleSettles(settings: Settings, states: seq<State>, trace: seq<Action>, session: SessionId)
    requires settings.Valid() && Run(settings, states, trace) && EndStands(states, |trace|, session)
    ensures CompletionsOf(states, trace, |trace|, session) <= 1 + |settings.correctionCheckpoints|
  {
    OneEndGiven(states, |trace|, session);
    SessionSettles(settings, states, trace, session);
    AtMostOneRound(PerEnd(settings), EndsGiven(states, |trace|, session));
  }

  lemma AtMostOneRound(a: nat, b: nat)
    requires b <= 1
    ensures a * b <= a
  {
  }

  lemma EndStandsEarlier(states: seq<State>, n: nat, session: SessionId)
    requires 0 < n < |states| && EndStands(states, n, session)
    ensures EndStands(states, n - 1, session)
  {
  }

  lemma {:induction false} OneEndGiven(states: seq<State>, n: nat, session: SessionId)
    requires n < |states| && EndStands(states, n, session)
    ensures EndsGiven(states, n, session) == if EndOf(states[n], session).Some? then 1 else 0
  {
    if n != 0 {
      EndStandsEarlier(states, n, session);
      OneEndGiven(states, n - 1, session);
      assert EndOf(states[n - 1], session).Some? ==> EndOf(states[n], session) == EndOf(states[n - 1], session);
    }
  }
}
