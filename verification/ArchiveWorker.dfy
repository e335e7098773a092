/**
 The worker on top of both sets of tables: committing a replacement together with the control rows it completes, and
 one turn of the worker with any other workers, planners and reservations running between its transactions. Every
 history of the database is a run of the control plane, so what is proved of runs holds for it.
 */
module ArchiveWorker {
  import opened Wrappers
  import opened RuntimePolicy
  import opened ControlPlane
  import opened ControlPlaneInvariant
  import opened Fencing
  import opened BackfillOrchestration
  import S = ArchiveSnapshot
  import T = ArchiveTables
  import P = ArchivePersistence

  datatype CommitError = OwnershipLost | Refused(error: P.PersistError)

  datatype WorkerOutcome = SessionCompleted | RetryPending | SessionFailed | ClaimLost

  /** What anybody else may do between two transactions of a worker; a beat may be the worker's own heartbeat thread. */
  datatype Turn =
    | PlanTurn(at: int, season: int, calendar: seq<SessionId>, freshId: JobId)
    | ClaimTurn(at: int)
    | BeatTurn(at: int, claim: Claim)
    | FailTurn(at: int, claim: Claim, failure: Failure, jitter: real)
    | RecoverTurn(at: int, batch: nat, jitters: seq<real>)
    | CommitTurn(at: int, claim: Claim, snapshot: S.Snapshot, expected: Option<P.TargetIdentity>)
    | AggregateTurn(at: int, job: JobId)
    | ReserveTurn(at: int, operation: Operation)
    | RefreshTurn(at: int, season: int, races: map<SessionId, Race>)

  predicate InOrder(from: int, turns: seq<Turn>, until: int) {
    && from <= until
    && (forall i :: 0 <= i < |turns| ==> from <= turns[i].at <= until)
    && (forall i, j :: 0 <= i < j < |turns| ==> turns[i].at <= turns[j].at)
  }

  /** How the retry policy files what persistence refuses: only a changed target is worth another attempt. */
  function FailureOf(error: P.PersistError): Failure {
    match error
    case TargetChanged => Retryable("archive_target_changed")
    case _ => Terminal("archive_persistence_refused")
  }

  function OutcomeOf(status: Status): WorkerOutcome {
    if status == Pending then RetryPending else SessionFailed
  }

  lemma RunGrows(settings: Settings, states: seq<State>, trace: seq<Action>, a: Action, t: State)
    requires Run(settings, states, trace) && Next(settings, states[|trace|], a, t)
    ensures Run(settings, states + [t], trace + [a])
  {
  }

  /** Sporting rows change only in the step in which the owner of a session completes it, and only as a replacement. */
  ghost predicate ArchiveStep(s: State, a: Action, before: T.Tables, after: T.Tables) {
    after == before
    || (a.Complete? && Owns(s, a.claim) && exists snapshot :: T.Replaced(before, after, a.claim.session, snapshot))
  }

  ghost predicate ArchiveHistory(states: seq<State>, trace: seq<Action>, archive: seq<T.Tables>) {
    && |states| == |trace| + 1 && |archive| == |states|
    && forall k {:trigger archive[k]} {:trigger trace[k]} :: 0 <= k < |trace| ==>
         ArchiveStep(states[k], trace[k], archive[k], archive[k + 1])
  }

  lemma ArchiveGrows(states: seq<State>, trace: seq<Action>, archive: seq<T.Tables>, a: Action, t: State,
                     after: T.Tables)
    requires ArchiveHistory(states, trace, archive) && ArchiveStep(states[|trace|], a, archive[|trace|], after)
    ensures ArchiveHistory(states + [t], trace + [a], archive + [after])
  {
    var ss, tr, ar := states + [t], trace + [a], archive + [after];
    forall k | 0 <= k < |tr| ensures ArchiveStep(ss[k], tr[k], ar[k], ar[k + 1]) {
      if k < |trace| {
        assert ss[k] == states[k] && tr[k] == trace[k] && ar[k] == archive[k] && ar[k + 1] == archive[k + 1];
      }
    }
  }

  /** One session's entries, results and laps are what they were. */
  ghost predicate SessionUntouched(before: T.Tables, after: T.Tables, session: SessionId) {
    && (forall id :: T.InSession(before, session, id) <==> T.InSession(after, session, id))
    && (forall id :: T.InSession(before, session, id) ==> after.entries[id] == before.entries[id])
    && (forall id :: T.InSession(before, session, id) ==>
          && (id in after.results <==> id in before.results)
          && (id in before.results ==> after.results[id] == before.results[id]))
    && (forall k: T.LapKey :: T.InSession(before, session, k.entry) ==>
          && (k in after.laps <==> k in before.laps)
          && (k in before.laps ==> after.laps[k] == before.laps[k]))
  }

  lemma UntouchedTwice(a: T.Tables, b: T.Tables, c: T.Tables, session: SessionId)
    requires SessionUntouched(a, b, session) && SessionUntouched(b, c, session)
    ensures SessionUntouched(a, c, session)
  {
  }

  lemma OtherReplacementLeaves(before: T.Tables, after: T.Tables, other: SessionId, session: SessionId)
    requires T.OthersUntouched(before, after, other) && session != other
    ensures SessionUntouched(before, after, session)
  {
  }

  /** The session's owner completes it. */
  predicate Completes(s: State, a: Action, session: SessionId) {
    a.Complete? && a.claim.session == session && Owns(s, a.claim)
  }

  /** Main result: over any history, a session's sporting rows change only when the owner of its claim completes it. */
  lemma {:induction false} RowsChangeOnlyWithCompletion(states: seq<State>, trace: seq<Action>, archive: seq<T.Tables>,
                                                        m: nat, n: nat, session: SessionId)
    requires ArchiveHistory(states, trace, archive) && m <= n <= |trace|
    requires forall k {:trigger trace[k]} :: m <= k < n ==> !Completes(states[k], trace[k], session)
    ensures SessionUntouched(archive[m], archive[n], session)
    decreases n
  {
    if m < n {
      RowsChangeOnlyWithCompletion(states, trace, archive, m, n - 1, session);
      StepLeavesSession(states[n - 1], trace[n - 1], archive[n - 1], archive[n], session);
      UntouchedTwice(archive[m], archive[n - 1], archive[n], session);
    }
  }

  lemma StepLeavesSession(s: State, a: Action, before: T.Tables, after: T.Tables, session: SessionId)
    requires ArchiveStep(s, a, before, after) && !Completes(s, a, session)
    ensures SessionUntouched(before, after, session)
  {
    if after != before {
      OtherReplacementLeaves(before, after, a.claim.session, session);
    }
  }

  lemma {:induction false} RecoverKeepsKeys(settings: Settings, s: State, now: int, keys: seq<RowKey>,
                                            jitters: seq<real>)
    requires |jitters| == |keys|
    ensures var t := RecoverRows(settings, s, now, keys, jitters);
            t.jobs.Keys == s.jobs.Keys && t.rows.Keys == s.rows.Keys
  {
    if keys != [] {
      RecoverKeepsKeys(settings, s, now, keys[..|keys| - 1], jitters[..|keys| - 1]);
    }
  }

  lemma StepKeepsJobs(settings: Settings, s: State, a: Action, t: State, job: JobId)
    requires Next(settings, s, a, t) && job in s.jobs
    ensures job in t.jobs
  {
    if a.Recover? {
      RecoverKeepsKeys(settings, s, a.now, a.keys, a.jitters);
    }
  }

  /** No job is ever deleted. */
  lemma {:induction false} JobsStay(settings: Settings, states: seq<State>, trace: seq<Action>, i: nat, n: nat,
                                    job: JobId)
    requires Run(settings, states, trace) && i <= n < |states| && job in states[i].jobs
    ensures job in states[n].jobs
    decreases n
  {
    if i < n {
      JobsStay(settings, states, trace, i, n - 1, job);
      StepKeepsJobs(settings, states[n - 1], trace[n - 1], states[n], job);
    }
  }

  /** The failure on record: what loading raised, or a refusal, which only a changed target makes worth a retry. */
  predicate RecordedFor(failure: Failure, loaded: Result<S.Snapshot, Failure>, changed: bool) {
    && (loaded.Err? ==> failure == loaded.error)
    && (loaded.Ok? ==> if changed then failure.Retryable? else failure.Terminal?)
  }

  /** How one claim ended: `ended` is the place in the history at which that was decided. */
  ghost predicate EndedInHistory(states: seq<State>, trace: seq<Action>, archive: seq<T.Tables>, claim: Claim,
                                 outcome: WorkerOutcome, ended: nat, loaded: Result<S.Snapshot, Failure>,
                                 changed: bool)
  {
    && ended <= |trace| && |states| == |trace| + 1 && |archive| == |states|
    && (outcome == ClaimLost <==> !Owns(states[ended], claim))
    && (outcome == SessionCompleted ==>
          && ended < |trace| && trace[ended].Complete? && trace[ended].claim == claim
          && loaded.Ok? && T.Replaced(archive[ended], archive[ended + 1], claim.session, loaded.value))
    && (outcome == RetryPending || outcome == SessionFailed ==>
          && ended < |trace| && trace[ended].Fail? && trace[ended].claim == claim
          && RecordedFor(trace[ended].failure, loaded, changed)
          && claim.Key() in states[ended + 1].rows
          && (outcome == RetryPending <==> states[ended + 1].rows[claim.Key()].status == Pending)
          && (outcome == SessionFailed <==> states[ended + 1].rows[claim.Key()].status == Failed))
  }

  class ArchiveDatabase {
    const settings: Settings
    const control: BackfillStore
    const sporting: P.SportingTables
    /** Everything committed so far: the control tables, the transactions, and the sporting tables beside them. */
    ghost var states: seq<State>
    ghost var trace: seq<Action>
    ghost var archive: seq<T.Tables>

    ghost predicate Valid()
      reads this, control, sporting
    {
      && control.Valid() && sporting.Valid() && control.settings == settings
      && Run(settings, states, trace) && ArchiveHistory(states, trace, archive)
      && states[|trace|] == control.Tables() && archive[|trace|] == sporting.Contents()
    }

    /** The history has only grown. */
    twostate predicate Grown()
      reads this
    {
      old(states) <= states && old(trace) <= trace && old(archive) <= archive
    }

    constructor (settings: Settings, races: map<SessionId, Race>, ingestions: map<SessionId, Ingestion>, gate: Gate,
                 targets: map<SessionId, P.TargetIdentity>, ghost start: int)
      requires settings.Valid() && Init(State(races, map[], map[], ingestions, gate, [], start))
      ensures Valid() && trace == [] && this.settings == settings && fresh(control) && fresh(sporting)
      ensures sporting.targets == targets
    {
      this.settings := settings;
      var store := new BackfillStore(settings, races, ingestions, gate, start);
      var tables := new P.SportingTables(targets);
      control, sporting := store, tables;
      states, trace, archive := [store.Tables()], [], [tables.Contents()];
    }

    /** Enters a control transaction that left the sporting tables alone. */
    ghost method Enter(a: Action)
      requires Run(settings, states, trace) && ArchiveHistory(states, trace, archive)
      requires control.Valid() && sporting.Valid() && control.settings == settings
      requires Next(settings, states[|trace|], a, control.Tables()) && archive[|trace|] == sporting.Contents()
      modifies this`states, this`trace, this`archive
      ensures Valid() && Grown() && trace == old(trace) + [a]
    {
      RunGrows(settings, states, trace, a, control.Tables());
      ArchiveGrows(states, trace, archive, a, control.Tables(), sporting.Contents());
      states, trace, archive := states + [control.Tables()], trace + [a], archive + [sporting.Contents()];
    }

    // -------------------------------------------------------------- completing a claim with its data

    /**
     One transaction: the claim is checked, the snapshot replaces the session's rows, and ingestion, row and job are
     completed; or nothing at all has changed.
     */
    method CommitReplacement(now: int, claim: Claim, snapshot: S.Snapshot, expected: Option<P.TargetIdentity>)
        returns (r: Result<P.Summary, CommitError>)
      requires Valid() && control.clock <= now
      modifies this`states, this`trace, this`archive, control, sporting
      ensures Valid() && Grown()
      ensures r.Ok? <==>
                && old(Owns(control.Tables(), claim)) && S.Indexable(snapshot.entries)
                && P.CanReplace(old(sporting.Contents()), sporting.targets, claim.session, snapshot, expected)
      ensures r.Ok? ==> T.Replaced(old(sporting.Contents()), sporting.Contents(), claim.session, snapshot)
      ensures r.Ok? ==> trace == old(trace) + [Complete(now, claim)] && control.clock == now
      ensures r.Err? ==> trace == old(trace) && control.Tables() == old(control.Tables())
                         && sporting.Contents() == old(sporting.Contents())
      ensures r == Err(OwnershipLost) ==> !old(Owns(control.Tables(), claim))
      ensures r.Err? && r.error.Refused? ==>
                P.RefusedFor(old(sporting.Contents()), sporting.targets, claim.session, snapshot, expected,
                             r.error.error)
      ensures r.Err? && r.error.Refused? && S.ValidateSnapshot(snapshot).None?
              && P.Targeted(sporting.targets, claim.session, expected)
              ==> old(Owns(control.Tables(), claim))
    {
      var invalid := S.ValidateSnapshot(snapshot);
      if invalid.Some? {
        return Err(Refused(P.Contract(invalid.value)));
      }
      if expected.Some? && expected.value.session != claim.session {
        return Err(Refused(P.ExpectationMismatch));
      }
      var held := control.HoldsRow(claim);
      if !held {
        return Err(OwnershipLost);
      }
      if claim.session !in sporting.targets {
        return Err(Refused(P.SessionNotFound));
      }
      if expected.Some? && sporting.targets[claim.session] != expected.value {
        return Err(Refused(P.TargetChanged));
      }
      var owned := control.CheckOwnership(claim);
      if !owned {
        return Err(OwnershipLost);
      }
      r := CompleteWith(now, claim, snapshot, expected);
    }

    /** The rows of an owned replacement, and the control rows with them. */
    method CompleteWith(now: int, claim: Claim, snapshot: S.Snapshot, expected: Option<P.TargetIdentity>)
        returns (r: Result<P.Summary, CommitError>)
      requires Valid() && control.clock <= now && Owns(control.Tables(), claim)
      modifies this`states, this`trace, this`archive, control, sporting
      ensures Valid() && Grown()
      ensures r.Ok? <==>
                && S.Indexable(snapshot.entries)
                && P.CanReplace(old(sporting.Contents()), sporting.targets, claim.session, snapshot, expected)
      ensures r.Ok? ==> T.Replaced(old(sporting.Contents()), sporting.Contents(), claim.session, snapshot)
      ensures r.Ok? ==> trace == old(trace) + [Complete(now, claim)] && control.clock == now
      ensures r.Err? ==> r.error.Refused? && trace == old(trace) && control.Tables() == old(control.Tables())
                         && sporting.Contents() == old(sporting.Contents())
      ensures r.Err? ==>
                P.RefusedFor(old(sporting.Contents()), sporting.targets, claim.session, snapshot, expected,
                             r.error.error)
    {
      ghost var before := sporting.Contents();
      var replaced := sporting.ReplaceSession(claim.session, snapshot, expected);
      if replaced.Err? {
        return Err(Refused(replaced.error));
      }
      var owned := control.CompleteClaim(now, claim);
      EnterCompletion(now, claim, snapshot);
      return Ok(replaced.value);
    }

    /** Enters a completion together with the replacement it committed. */
    ghost method EnterCompletion(now: int, claim: Claim, snapshot: S.Snapshot)
      requires Run(settings, states, trace) && ArchiveHistory(states, trace, archive)
      requires control.Valid() && sporting.Valid() && control.settings == settings
      requires Next(settings, states[|trace|], Complete(now, claim), control.Tables()) && Owns(states[|trace|], claim)
      requires T.Replaced(archive[|trace|], sporting.Contents(), claim.session, snapshot)
      modifies this`states, this`trace, this`archive
      ensures Valid() && Grown() && trace == old(trace) + [Complete(now, claim)]
    {
      RunGrows(settings, states, trace, Complete(now, claim), control.Tables());
      ArchiveGrows(states, trace, archive, Complete(now, claim), control.Tables(), sporting.Contents());
      states, trace, archive := states + [control.Tables()], trace + [Complete(now, claim)],
        archive + [sporting.Contents()];
    }

    // -------------------------------------------------------------- everybody else

    method PlanTurnTaken(now: int, season: int, calendar: seq<SessionId>, freshId: JobId)
      requires Valid() && control.clock <= now
      modifies this`states, this`trace, this`archive, control
      ensures Valid() && Grown() && control.clock <= now
    {
      if OnCalendar(control.races, season, calendar) && freshId !in control.jobs {
        var job, queued, active := control.CreateOrReuseJob(now, season, calendar, freshId);
        Enter(Plan(now, season, calendar, active, freshId));
      }
    }

    method ClaimNext(now: int) returns (outcome: ClaimOutcome)
      requires Valid() && control.clock <= now
      modifies this`states, this`trace, this`archive, control
      ensures Valid() && Grown() && control.clock == now && trace == old(trace) + [Action.ClaimNext(now, outcome)]
      ensures outcome.NoWork? || outcome.Claimed?
      ensures outcome.Claimed? <==> CanClaim(settings, old(control.Tables()), now)
      ensures outcome.Claimed? ==> Owns(control.Tables(), outcome.claim)
    {
      outcome := control.ClaimNextArchiveJobSession(now);
      Enter(Action.ClaimNext(now, outcome));
    }

    method Beat(now: int, claim: Claim) returns (owned: bool)
      requires Valid() && control.clock <= now
      modifies this`states, this`trace, this`archive, control
      ensures Valid() && Grown() && control.clock == now && owned == old(Owns(control.Tables(), claim))
      ensures trace == old(trace) + [Heartbeat(now, claim)]
    {
      owned := control.HeartbeatArchiveJobSession(now, claim);
      Enter(Heartbeat(now, claim));
    }

    method FailClaim(now: int, claim: Claim, failure: Failure, jitter: real) returns (owned: bool)
      requires Valid() && control.clock <= now && 0.0 <= jitter <= 1.0
      modifies this`states, this`trace, this`archive, control
      ensures Valid() && Grown() && control.clock == now && owned == old(Owns(control.Tables(), claim))
      ensures trace == old(trace) + [Fail(now, claim, failure, jitter)] && !Owns(control.Tables(), claim)
      ensures owned ==>
                && claim.Key() in control.rows
                && (control.rows[claim.Key()].status == Pending
                    || control.rows[claim.Key()].status == ControlPlane.Failed)
    {
      owned := control.TransitionArchiveJobFailure(now, claim, failure, jitter);
      Enter(Fail(now, claim, failure, jitter));
    }

    method RecoverTurnTaken(now: int, batch: nat, jitters: seq<real>)
      requires Valid() && control.clock <= now
      modifies this`states, this`trace, this`archive, control
      ensures Valid() && Grown() && control.clock <= now
    {
      if |jitters| == batch && forall i :: 0 <= i < |jitters| ==> 0.0 <= jitters[i] <= 1.0 {
        var recovered := control.RecoverStaleArchiveJobSessions(now, batch, jitters);
        Enter(Recover(now, batch, recovered, jitters[..|recovered|]));
      }
    }

    method AggregateJob(now: int, job: JobId)
      requires Valid() && control.clock <= now && job in control.jobs
      modifies this`states, this`trace, this`archive, control
      ensures Valid() && Grown() && control.clock == now && job in control.jobs
      ensures |trace| == |old(trace)| + 1 && trace[|old(trace)|].Aggregate? && trace[|old(trace)|].job == job
      ensures control.jobs[job].status.Active() <==> HasActiveRow(control.Tables(), job)
    {
      var counts, earliest := control.AggregateBackfillJob(now, job);
      Enter(Aggregate(now, job, earliest));
    }

    method ReserveTurnTaken(now: int, operation: Operation)
      requires Valid() && control.clock <= now
      modifies this`states, this`trace, this`archive, control
      ensures Valid() && Grown() && control.clock <= now
    {
      var result := control.ReserveRequest(now, operation);
      Enter(Reserve(now, operation));
    }

    method RefreshTurnTaken(now: int, season: int, races: map<SessionId, Race>)
      requires Valid() && control.clock <= now
      modifies this`states, this`trace, this`archive, control
      ensures Valid() && Grown() && control.clock <= now
    {
      if RefreshesSeason(control.races, season, races) {
        control.RefreshCalendar(now, season, races);
        Enter(Refresh(now, season, races));
      }
    }

    /** One turn of somebody else; a turn whose arguments no caller could give is skipped. */
    method TakeTurn(turn: Turn) returns (beatRefused: bool)
      requires Valid() && control.clock <= turn.at
      modifies this`states, this`trace, this`archive, control, sporting
      ensures Valid() && Grown() && control.clock <= turn.at
      ensures beatRefused <==> turn.BeatTurn? && !old(Owns(control.Tables(), turn.claim))
    {
      beatRefused := false;
      match turn
      case PlanTurn(at, season, calendar, freshId) => PlanTurnTaken(at, season, calendar, freshId);
      case ClaimTurn(at) => var outcome := ClaimNext(at);
      case BeatTurn(at, claim) =>
        var owned := Beat(at, claim);
        beatRefused := !owned;
      case FailTurn(at, claim, failure, jitter) =>
        if 0.0 <= jitter <= 1.0 {
          var owned := FailClaim(at, claim, failure, jitter);
        }
      case RecoverTurn(at, batch, jitters) => RecoverTurnTaken(at, batch, jitters);
      case CommitTurn(at, claim, snapshot, expected) => var r := CommitReplacement(at, claim, snapshot, expected);
      case AggregateTurn(at, job) =>
        if job in control.jobs {
          AggregateJob(at, job);
        }
      case ReserveTurn(at, operation) => ReserveTurnTaken(at, operation);
      case RefreshTurn(at, season, races) => RefreshTurnTaken(at, season, races);
    }

    /** Turns in order. A refused beat of `mine` says that `mine` is lost, and lost it stays. */
    method TakeTurns(turns: seq<Turn>, mine: Claim, ghost issued: nat, until: int) returns (refused: bool)
      requires Valid() && InOrder(control.clock, turns, until) && issued < |trace| && Issues(trace[issued], mine)
      modifies this`states, this`trace, this`archive, control, sporting
      ensures Valid() && Grown() && control.clock <= until
      ensures refused ==> !Owns(control.Tables(), mine)
      ensures !old(Owns(control.Tables(), mine)) ==> !Owns(control.Tables(), mine)
    {
      refused := false;
      for i := 0 to |turns|
        invariant Valid() && Grown() && control.clock <= until && forall j :: i <= j < |turns| ==>
                  control.clock <= turns[j].at
        invariant refused || !old(Owns(control.Tables(), mine)) ==> !Owns(control.Tables(), mine)
      {
        ghost var n := |trace|;
        var beatRefused := TakeTurn(turns[i]);
        if beatRefused && turns[i].claim == mine {
          refused := true;
        }
        StaysLost(mine, issued, n);
      }
    }

    lemma StaysLost(mine: Claim, issued: nat, n: nat)
      requires Valid() && issued < n <= |trace| && Issues(trace[issued], mine)
      ensures !Owns(states[n], mine) ==> !Owns(control.Tables(), mine)
    {
      if !Owns(states[n], mine) {
        OwnershipNeverReturns(settings, states, trace, issued, n, |trace|, mine);
      }
    }

    // -------------------------------------------------------------- one turn of the worker

    /** A sound snapshot was loaded for a session that has changed since. */
    predicate Changed(claim: Claim, loaded: Result<S.Snapshot, Failure>, expected: Option<P.TargetIdentity>) {
      loaded.Ok? && S.ValidateSnapshot(loaded.value).None?
      && P.TargetHasChanged(sporting.targets, claim.session, expected)
    }

    ghost predicate EndedAs(claim: Claim, outcome: WorkerOutcome, ended: nat, loaded: Result<S.Snapshot, Failure>,
                            expected: Option<P.TargetIdentity>)
      reads this`states, this`trace, this`archive
    {
      EndedInHistory(states, trace, archive, claim, outcome, ended, loaded, Changed(claim, loaded, expected))
    }

    lemma EndStays(claim: Claim, outcome: WorkerOutcome, ended: nat, loaded: Result<S.Snapshot, Failure>,
                   expected: Option<P.TargetIdentity>, wasStates: seq<State>, wasTrace: seq<Action>,
                     wasArchive: seq<T.Tables>)
      requires Valid() && wasStates <= states && wasTrace <= trace && wasArchive <= archive
      requires EndedInHistory(wasStates, wasTrace, wasArchive, claim, outcome, ended, loaded,
                              Changed(claim, loaded, expected))
      ensures EndedAs(claim, outcome, ended, loaded, expected)
    {
    }

    /** The last step of the history is this failure. */
    lemma FailureEnds(now: int, claim: Claim, failure: Failure, jitter: real, loaded: Result<S.Snapshot, Failure>,
                      expected: Option<P.TargetIdentity>, ended: nat)
      requires Valid() && ended + 1 == |trace| && trace[ended] == Fail(now, claim, failure, jitter)
      requires RecordedFor(failure, loaded, Changed(claim, loaded, expected))
      requires Owns(states[ended], claim) ==>
                 && claim.Key() in control.rows
                 && (control.rows[claim.Key()].status == Pending
                     || control.rows[claim.Key()].status == ControlPlane.Failed)
      ensures Owns(states[ended], claim) ==>
                EndedAs(claim, OutcomeOf(control.rows[claim.Key()].status), ended, loaded, expected)
      ensures !Owns(states[ended], claim) ==> EndedAs(claim, ClaimLost, ended, loaded, expected)
    {
    }

    /** Records what went wrong; a claim that is gone by then is lost instead. */
    method RecordFailure(now: int, claim: Claim, failure: Failure, jitter: real,
                         ghost loaded: Result<S.Snapshot, Failure>, ghost expected: Option<P.TargetIdentity>)
        returns (outcome: WorkerOutcome, ghost ended: nat)
      requires Valid() && control.clock <= now && 0.0 <= jitter <= 1.0
      requires RecordedFor(failure, loaded, Changed(claim, loaded, expected))
      modifies this`states, this`trace, this`archive, control
      ensures Valid() && Grown() && control.clock <= now
      ensures ended == |old(trace)| && outcome != SessionCompleted
      ensures EndedAs(claim, outcome, ended, loaded, expected) && !Owns(control.Tables(), claim)
    {
      ended := |trace|;
      var owned := FailClaim(now, claim, failure, jitter);
      outcome := if owned then OutcomeOf(control.rows[claim.Key()].status) else ClaimLost;
      FailureEnds(now, claim, failure, jitter, loaded, expected, ended);
    }

    /** The last step of the history is this completion, with the replacement it committed. */
    lemma CompletionEnds(now: int, claim: Claim, snapshot: S.Snapshot, expected: Option<P.TargetIdentity>, ended: nat,
                         before: T.Tables)
      requires Valid() && ended + 1 == |trace| && trace[ended] == Complete(now, claim) && Owns(states[ended], claim)
      requires archive[ended] == before && T.Replaced(before, sporting.Contents(), claim.session, snapshot)
      ensures EndedAs(claim, SessionCompleted, ended, Ok(snapshot), expected) && !Owns(control.Tables(), claim)
    {
      assert Next(settings, states[ended], trace[ended], states[ended + 1]);
    }

    lemma RefusalIsRecorded(claim: Claim, snapshot: S.Snapshot, expected: Option<P.TargetIdentity>, before: T.Tables,
                            e: P.PersistError)
      requires P.RefusedFor(before, sporting.targets, claim.session, snapshot, expected, e)
      ensures RecordedFor(FailureOf(e), Ok(snapshot), Changed(claim, Ok(snapshot), expected))
    {
    }

    /** Commits what was loaded; what persistence refuses is still to be recorded, as the returned failure. */
    method Persist(now: int, claim: Claim, snapshot: S.Snapshot, expected: Option<P.TargetIdentity>)
        returns (outcome: WorkerOutcome, refusal: Option<Failure>, ghost ended: nat)
      requires Valid() && control.clock <= now
      modifies this`states, this`trace, this`archive, control, sporting
      ensures Valid() && Grown() && control.clock <= now && ended == |old(trace)|
      ensures refusal.None? ==> EndedAs(claim, outcome, ended, Ok(snapshot), expected) && !Owns(control.Tables(), claim)
      ensures refusal.None? ==> outcome == SessionCompleted || outcome == ClaimLost
      ensures refusal.Some? ==> RecordedFor(refusal.value, Ok(snapshot), Changed(claim, Ok(snapshot), expected))
      ensures refusal.None? && outcome == SessionCompleted <==>
                && old(Owns(control.Tables(), claim)) && S.Indexable(snapshot.entries)
                && P.CanReplace(old(sporting.Contents()), sporting.targets, claim.session, snapshot, expected)
    {
      outcome, refusal, ended := ClaimLost, None, |trace|;
      ghost var before := sporting.Contents();
      var r := CommitReplacement(now, claim, snapshot, expected);
      if r.Ok? {
        outcome := SessionCompleted;
        CompletionEnds(now, claim, snapshot, expected, ended, before);
      } else if r.error.Refused? {
        refusal := Some(FailureOf(r.error.error));
        RefusalIsRecorded(claim, snapshot, expected, before, r.error.error);
      }
    }

    /** Persists what was loaded, or records what was raised; others may run between the two. */
    method EndClaim(now: int, claim: Claim, loaded: Result<S.Snapshot, Failure>, expected: Option<P.TargetIdentity>,
                    between: seq<Turn>, failAt: int, jitter: real, ghost issued: nat)
        returns (outcome: WorkerOutcome, ghost ended: nat)
      requires Valid() && control.clock <= now && InOrder(now, between, failAt) && 0.0 <= jitter <= 1.0
      requires issued < |trace| && Issues(trace[issued], claim)
      modifies this`states, this`trace, this`archive, control, sporting
      ensures Valid() && Grown() && control.clock <= failAt && |old(trace)| <= ended
      ensures EndedAs(claim, outcome, ended, loaded, expected) && !Owns(control.Tables(), claim)
      ensures outcome == SessionCompleted <==>
                && loaded.Ok? && old(Owns(control.Tables(), claim)) && S.Indexable(loaded.value.entries)
                && P.CanReplace(old(sporting.Contents()), sporting.targets, claim.session, loaded.value, expected)
    {
      match loaded
      case Err(failure) =>
        outcome, ended := RecordFailure(failAt, claim, failure, jitter, loaded, expected);
      case Ok(snapshot) =>
        var refusal;
        outcome, refusal, ended := Persist(now, claim, snapshot, expected);
        if refusal.Some? {
          outcome, ended := RecordRefusal(now, claim, refusal.value, between, failAt, jitter, issued, loaded, expected);
        }
    }

    method RecordRefusal(now: int, claim: Claim, refusal: Failure, between: seq<Turn>, failAt: int, jitter: real,
                         ghost issued: nat, ghost loaded: Result<S.Snapshot, Failure>,
                         ghost expected: Option<P.TargetIdentity>)
        returns (outcome: WorkerOutcome, ghost ended: nat)
      requires Valid() && control.clock <= now && InOrder(now, between, failAt) && 0.0 <= jitter <= 1.0
      requires RecordedFor(refusal, loaded, Changed(claim, loaded, expected))
      requires issued < |trace| && Issues(trace[issued], claim)
      modifies this`states, this`trace, this`archive, control, sporting
      ensures Valid() && Grown() && control.clock <= failAt && |old(trace)| <= ended && outcome != SessionCompleted
      ensures EndedAs(claim, outcome, ended, loaded, expected) && !Owns(control.Tables(), claim)
    {
      var refused := TakeTurns(between, claim, issued, failAt);
      outcome, ended := RecordFailure(failAt, claim, refusal, jitter, loaded, expected);
    }

    /**
     Holding the claim: others run during the load; unless its own heartbeat was refused, the worker ends the claim.
     */
    method WorkOn(claim: Claim, during: seq<Turn>, endAt: int, loaded: Result<S.Snapshot, Failure>,
                  expected: Option<P.TargetIdentity>, between: seq<Turn>, failAt: int, jitter: real, ghost issued: nat)
        returns (outcome: WorkerOutcome, ghost ended: nat)
      requires Valid() && InOrder(control.clock, during, endAt) && InOrder(endAt, between, failAt)
               && 0.0 <= jitter <= 1.0
      requires issued < |trace| && Issues(trace[issued], claim)
      modifies this`states, this`trace, this`archive, control, sporting
      ensures Valid() && Grown() && control.clock <= failAt && |old(trace)| <= ended
      ensures EndedAs(claim, outcome, ended, loaded, expected) && !Owns(control.Tables(), claim)
    {
      var refused := TakeTurns(during, claim, issued, endAt);
      if refused {
        outcome, ended := ClaimLost, |trace|;
      } else {
        outcome, ended := EndClaim(endAt, claim, loaded, expected, between, failAt, jitter, issued);
      }
    }

    /** After the end others run again, and the parent job is brought up to date. */
    method CloseTurn(claim: Claim, after: seq<Turn>, aggregateAt: int, ghost issued: nat)
      requires Valid() && InOrder(control.clock, after, aggregateAt)
      requires issued < |trace| && Issues(trace[issued], claim) && !Owns(control.Tables(), claim)
      modifies this`states, this`trace, this`archive, control, sporting
      ensures Valid() && Grown() && !Owns(control.Tables(), claim)
      ensures claim.job in control.jobs
              && (control.jobs[claim.job].status.Active() <==> HasActiveRow(control.Tables(), claim.job))
    {
      var late := TakeTurns(after, claim, issued, aggregateAt);
      JobStays(claim, issued);
      ghost var n := |trace|;
      AggregateJob(aggregateAt, claim.job);
      StaysLost(claim, issued, n);
    }

    lemma JobStays(claim: Claim, issued: nat)
      requires Valid() && issued < |trace| && Issues(trace[issued], claim)
      ensures claim.job in control.jobs
    {
      IssuedClaimOwns(settings, states[issued], trace[issued], states[issued + 1], claim);
      JobsStay(settings, states, trace, issued + 1, |trace|, claim.job);
    }

    /** The whole life of one claim. */
    method ProcessClaim(claim: Claim, during: seq<Turn>, endAt: int, loaded: Result<S.Snapshot, Failure>,
                        expected: Option<P.TargetIdentity>, between: seq<Turn>, failAt: int, jitter: real,
                        after: seq<Turn>, aggregateAt: int, ghost issued: nat)
        returns (outcome: WorkerOutcome, ghost ended: nat)
      requires Valid() && 0.0 <= jitter <= 1.0 && issued < |trace| && Issues(trace[issued], claim)
      requires InOrder(control.clock, during, endAt) && InOrder(endAt, between, failAt)
               && InOrder(failAt, after, aggregateAt)
      modifies this`states, this`trace, this`archive, control, sporting
      ensures Valid() && Grown() && |old(trace)| <= ended
      ensures EndedAs(claim, outcome, ended, loaded, expected) && !Owns(control.Tables(), claim)
      ensures claim.job in control.jobs
              && (control.jobs[claim.job].status.Active() <==> HasActiveRow(control.Tables(), claim.job))
    {
      outcome, ended := WorkOn(claim, during, endAt, loaded, expected, between, failAt, jitter, issued);
      ghost var ss, tr, ar := states, trace, archive;
      CloseTurn(claim, after, aggregateAt, issued);
      EndStays(claim, outcome, ended, loaded, expected, ss, tr, ar);
    }

    /**
     One turn of the worker: claim, load, complete or fail, aggregate. Anybody else runs `during` the load, `between` a
     refused replacement and its record, and `after` the end. However it ends, the outcome says what happened to the
     claim, the worker leaves none behind, and the parent job is up to date.
     */
    method ProcessNextArchiveJobSession(claimAt: int, during: seq<Turn>, endAt: int,
                                        loaded: Result<S.Snapshot, Failure>,
                                        expected: Option<P.TargetIdentity>, between: seq<Turn>, failAt: int,
                                          jitter: real,
                                        after: seq<Turn>, aggregateAt: int)
        returns (claimed: Option<Claim>, outcome: WorkerOutcome, ghost ended: nat)
      requires Valid() && control.clock <= claimAt && 0.0 <= jitter <= 1.0
      requires InOrder(claimAt, during, endAt) && InOrder(endAt, between, failAt) && InOrder(failAt, after, aggregateAt)
      modifies this`states, this`trace, this`archive, control, sporting
      ensures Valid() && Grown()
      ensures claimed.Some? <==> CanClaim(settings, old(control.Tables()), claimAt)
      ensures claimed.None? ==> trace == old(trace) + [Action.ClaimNext(claimAt, NoWork)]
      ensures claimed.Some? ==>
                && |old(trace)| < ended && |old(trace)| < |trace| && Issues(trace[|old(trace)|], claimed.value)
                && EndedAs(claimed.value, outcome, ended, loaded, expected) && !Owns(control.Tables(), claimed.value)
      ensures claimed.Some? ==>
                && claimed.value.job in control.jobs
                && (control.jobs[claimed.value.job].status.Active() <==>
                    HasActiveRow(control.Tables(), claimed.value.job))
    {
      claimed, outcome, ended := None, ClaimLost, 0;
      ghost var issued := |trace|;
      var next := ClaimNext(claimAt);
      if !next.Claimed? {
        return;
      }
      claimed := Some(next.claim);
      outcome, ended := ProcessClaim(next.claim, during, endAt, loaded, expected, between, failAt, jitter, after,
                                     aggregateAt, issued);
    }
  }
}
