/**
 One season's calendar. A refresh marks the rows of the new schedule instead of deleting old ones, and readers filter
 by the latest mark; over any sequence of refreshes that shows exactly the last schedule, because no two refreshes
 can carry the same mark.
 */
module SeasonCalendar {
  import opened Wrappers
  import opened RuntimePolicy
  import Freshness = FreshnessPolicy
  import C = ControlPlane

  type Round = int

  datatype Source = Archive | OtherSource

  datatype EventFacts = EventFacts(
    name: string, officialName: Option<string>, country: Option<string>, location: Option<string>,
      format: Option<string>,
    startsAt: Option<int>, endsAt: Option<int>)

  datatype SessionFacts = SessionFacts(name: string, startAt: Option<int>, endAt: Option<int>)

  datatype ScheduledSession = ScheduledSession(key: string, facts: SessionFacts)

  datatype ScheduledEvent = ScheduledEvent(round: Round, facts: EventFacts, sessions: seq<ScheduledSession>)

  datatype DeferredEvent = DeferredEvent(round: Round, name: string, startAt: int)

  datatype Schedule = Schedule(events: seq<ScheduledEvent>, deferred: seq<DeferredEvent>) {
    /** Discovery delivers each round once, and each session key once per round. */
    predicate WellFormed() {
      && (forall i, j :: 0 <= i < j < |events| ==> events[i].round != events[j].round)
      && (forall i :: 0 <= i < |events| ==> SessionKeysDistinct(events[i].sessions))
      && (forall i, j :: 0 <= i < j < |deferred| ==> deferred[i].round != deferred[j].round)
    }
  }

  predicate SessionKeysDistinct(sessions: seq<ScheduledSession>) {
    forall i, j :: 0 <= i < j < |sessions| ==> sessions[i].key != sessions[j].key
  }

  datatype EventRow = EventRow(facts: EventFacts, source: Source, discoveredAt: Option<int>)

  datatype SessionId = SessionId(round: Round, key: string)

  datatype SessionRow = SessionRow(facts: SessionFacts, source: Source, discoveredAt: Option<int>)

  datatype DeferredRow = DeferredRow(name: string, startAt: int, discoveredAt: int)

  /** The season row and everything that belongs to it. */
  datatype Calendar = Calendar(
    checkedAt: Option<int>,
    validUntil: Option<int>,
    events: map<Round, EventRow>,
    sessions: map<SessionId, SessionRow>,
    deferred: map<Round, DeferredRow>)

  // ---------------------------------------------------------------- what readers see

  predicate EventShown(c: Calendar, round: Round) {
    c.checkedAt.Some? && round in c.events && c.events[round].discoveredAt == c.checkedAt
  }

  predicate SessionShown(c: Calendar, id: SessionId) {
    EventShown(c, id.round) && id in c.sessions && c.sessions[id].discoveredAt == c.checkedAt
  }

  predicate DeferredShown(c: Calendar, round: Round) {
    c.checkedAt.Some? && round in c.deferred && c.deferred[round].discoveredAt == c.checkedAt.value
  }

  predicate Schedules(s: Schedule, round: Round) {
    exists i :: 0 <= i < |s.events| && s.events[i].round == round
  }

  predicate SchedulesSession(s: Schedule, id: SessionId) {
    exists i, j :: 0 <= i < |s.events| && 0 <= j < |s.events[i].sessions| && IsAt(s, i, j, id)
  }

  predicate IsAt(s: Schedule, i: nat, j: nat, id: SessionId)
    requires i < |s.events| && j < |s.events[i].sessions|
  {
    id == SessionId(s.events[i].round, s.events[i].sessions[j].key)
  }

  /** Readers see exactly this schedule: its events, its sessions and its deferred events, with its facts. */
  ghost predicate Shows(c: Calendar, s: Schedule) {
    && (forall round :: EventShown(c, round) <==> Schedules(s, round))
    && (forall i :: 0 <= i < |s.events| ==>
        s.events[i].round in c.events && c.events[s.events[i].round].facts == s.events[i].facts)
    && (forall id :: SessionShown(c, id) <==> SchedulesSession(s, id))
    && (forall i, j :: 0 <= i < |s.events| && 0 <= j < |s.events[i].sessions| ==>
          var id := SessionId(s.events[i].round, s.events[i].sessions[j].key);
          id in c.sessions && c.sessions[id].facts == s.events[i].sessions[j].facts)
    && (forall round :: DeferredShown(c, round) <==> exists i :: 0 <= i < |s.deferred| && s.deferred[i].round == round)
    && (forall i :: 0 <= i < |s.deferred| ==>
          && s.deferred[i].round in c.deferred
          && c.deferred[s.deferred[i].round].name == s.deferred[i].name
          && c.deferred[s.deferred[i].round].startAt == s.deferred[i].startAt)
  }

  /** Every mark is the latest check's or older, and the coverage of that check outlives it. */
  ghost predicate MarksBounded(c: Calendar) {
    && (forall round :: round in c.events && c.events[round].discoveredAt.Some? ==>
          c.checkedAt.Some? && c.events[round].discoveredAt.value <= c.checkedAt.value)
    && (forall id :: id in c.sessions && c.sessions[id].discoveredAt.Some? ==>
          c.checkedAt.Some? && c.sessions[id].discoveredAt.value <= c.checkedAt.value)
    && (c.checkedAt.Some? ==> c.validUntil.Some? && c.checkedAt.value < c.validUntil.value)
  }

  // ---------------------------------------------------------------- one refresh on values

  /** A scheduled row that another source owns. */
  predicate SourceConflict(c: Calendar, s: Schedule) {
    || (exists i ::
          0 <= i < |s.events| && s.events[i].round in c.events && c.events[s.events[i].round].source != Archive)
    || (exists i, j :: 0 <= i < |s.events| && 0 <= j < |s.events[i].sessions| && ForeignSession(c.sessions, s, i, j))
  }

  predicate ForeignSession(sessions: map<SessionId, SessionRow>, s: Schedule, i: nat, j: nat)
    requires i < |s.events| && j < |s.events[i].sessions|
  {
    var id := SessionId(s.events[i].round, s.events[i].sessions[j].key);
    id in sessions && sessions[id].source != Archive
  }

  /** The first `n` events of the schedule have been written over `was`. */
  ghost predicate EventsWritten(was: map<Round, EventRow>, now: map<Round, EventRow>, s: Schedule, n: nat, at: int)
    requires n <= |s.events|
  {
    && (forall i :: 0 <= i < n ==>
        s.events[i].round in now && now[s.events[i].round] == EventRow(s.events[i].facts, Archive, Some(at)))
    && (forall round :: round in was ==> round in now)
    && (forall round :: round in now ==>
          (round in was && now[round] == was[round]) || exists i :: 0 <= i < n && s.events[i].round == round)
  }

  /** The sessions of the first `n` events, and the first `m` of event `n`, have been written over `was`. */
  ghost predicate SessionsWritten(was: map<SessionId, SessionRow>, now: map<SessionId, SessionRow>, s: Schedule, n: nat,
                                  m: nat,
                                  at: int)
    requires n <= |s.events|
  {
    && (forall i, j :: 0 <= i < |s.events| && 0 <= j < |s.events[i].sessions| && Reached(i, j, n, m) ==>
          var id := SessionId(s.events[i].round, s.events[i].sessions[j].key);
          id in now && now[id] == SessionRow(s.events[i].sessions[j].facts, Archive, Some(at)))
    && (forall id :: id in was ==> id in now)
    && (forall id :: id in now ==> (id in was && now[id] == was[id]) || WrittenSession(s, n, m, id))
  }

  predicate Reached(i: nat, j: nat, n: nat, m: nat) {
    i < n || (i == n && j < m)
  }

  predicate WrittenSession(s: Schedule, n: nat, m: nat, id: SessionId) {
    exists i, j :: 0 <= i < |s.events| && 0 <= j < |s.events[i].sessions| && Reached(i, j, n, m) && IsAt(s, i, j, id)
  }

  ghost predicate DeferredWritten(now: map<Round, DeferredRow>, s: Schedule, at: int) {
    && (forall round :: round in now <==> exists i :: 0 <= i < |s.deferred| && s.deferred[i].round == round)
    && (forall i :: 0 <= i < |s.deferred| ==>
          s.deferred[i].round in now
            && now[s.deferred[i].round] == DeferredRow(s.deferred[i].name, s.deferred[i].startAt, at))
  }

  ghost predicate Refreshed(was: Calendar, now: Calendar, s: Schedule, at: int, ttl: int) {
    && now.checkedAt == Some(at) && now.validUntil == Some(at + ttl)
    && EventsWritten(was.events, now.events, s, |s.events|, at)
    && SessionsWritten(was.sessions, now.sessions, s, |s.events|, 0, at)
    && DeferredWritten(now.deferred, s, at)
  }

  /** Main result: a refresh of stale coverage makes readers see exactly the new schedule, whatever was there before. */
  lemma RefreshShowsSchedule(was: Calendar, now: Calendar, s: Schedule, at: int, ttl: int)
    requires MarksBounded(was) && 0 < ttl && Refreshed(was, now, s, at, ttl)
    requires was.validUntil.Some? ==> was.validUntil.value <= at
    ensures Shows(now, s) && MarksBounded(now)
  {
    forall round ensures EventShown(now, round) <==> Schedules(s, round) {
      if i :| 0 <= i < |s.events| && s.events[i].round == round {
        assert now.events[s.events[i].round].discoveredAt == Some(at);
      }
    }
    forall id ensures SessionShown(now, id) <==> SchedulesSession(s, id) {
      SessionShownExactlyWhen(was, now, s, at, ttl, id);
    }
    RefreshBoundsMarks(was, now, s, at, ttl);
    forall i, j | 0 <= i < |s.events| && 0 <= j < |s.events[i].sessions|
      ensures var id := SessionId(s.events[i].round, s.events[i].sessions[j].key);
              id in now.sessions && now.sessions[id].facts == s.events[i].sessions[j].facts
    {
      assert Reached(i, j, |s.events|, 0);
    }
  }

  lemma SessionShownExactlyWhen(was: Calendar, now: Calendar, s: Schedule, at: int, ttl: int, id: SessionId)
    requires MarksBounded(was) && Refreshed(was, now, s, at, ttl)
    requires was.validUntil.Some? ==> was.validUntil.value <= at
    ensures SessionShown(now, id) <==> SchedulesSession(s, id)
  {
    if i, j :| 0 <= i < |s.events| && 0 <= j < |s.events[i].sessions| && IsAt(s, i, j, id) {
      assert Reached(i, j, |s.events|, 0);
      assert now.sessions[SessionId(s.events[i].round, s.events[i].sessions[j].key)].discoveredAt == Some(at);
      assert now.events[s.events[i].round].discoveredAt == Some(at);
    }
  }

  lemma RefreshBoundsMarks(was: Calendar, now: Calendar, s: Schedule, at: int, ttl: int)
    requires MarksBounded(was) && 0 < ttl && Refreshed(was, now, s, at, ttl)
    requires was.validUntil.Some? ==> was.validUntil.value <= at
    ensures MarksBounded(now)
  {
    forall id | id in now.sessions && now.sessions[id].discoveredAt.Some?
      ensures now.sessions[id].discoveredAt.value <= at {
      if WrittenSession(s, |s.events|, 0, id) {
        var i, j :| 0 <= i < |s.events| && 0 <= j < |s.events[i].sessions| && Reached(i, j, |s.events|, 0)
          && IsAt(s, i, j, id);
        assert now.sessions[SessionId(s.events[i].round, s.events[i].sessions[j].key)].discoveredAt == Some(at);
      }
    }
  }

  // ---------------------------------------------------------------- one row at a time

  lemma EventWritten(was: map<Round, EventRow>, now: map<Round, EventRow>, s: Schedule, n: nat, at: int)
    requires n < |s.events| && s.WellFormed() && EventsWritten(was, now, s, n, at)
    ensures s.events[n].round in now <==> s.events[n].round in was
    ensures s.events[n].round in was ==> now[s.events[n].round] == was[s.events[n].round]
    ensures EventsWritten(was, now[s.events[n].round := EventRow(s.events[n].facts, Archive, Some(at))], s, n + 1, at)
  {
  }

  lemma SessionNotYetWritten(s: Schedule, n: nat, m: nat)
    requires s.WellFormed() && n < |s.events| && m < |s.events[n].sessions|
    ensures !WrittenSession(s, n, m, SessionId(s.events[n].round, s.events[n].sessions[m].key))
  {
    var id := SessionId(s.events[n].round, s.events[n].sessions[m].key);
    forall i, j | 0 <= i < |s.events| && 0 <= j < |s.events[i].sessions| && Reached(i, j, n, m)
      ensures !IsAt(s, i, j, id) {
      if i == n {
        assert SessionKeysDistinct(s.events[n].sessions);
      }
    }
  }

  lemma SessionWritten(was: map<SessionId, SessionRow>, now: map<SessionId, SessionRow>, s: Schedule, n: nat, m: nat,
                       at: int)
    requires s.WellFormed() && n < |s.events| && m < |s.events[n].sessions| && SessionsWritten(was, now, s, n, m, at)
    ensures var id := SessionId(s.events[n].round, s.events[n].sessions[m].key);
            && (id in now <==> id in was) && (id in was ==> now[id] == was[id])
            && SessionsWritten(was, now[id := SessionRow(s.events[n].sessions[m].facts, Archive, Some(at))], s, n,
                               m + 1, at)
  {
    SessionNotYetWritten(s, n, m);
    var id := SessionId(s.events[n].round, s.events[n].sessions[m].key);
    var after := now[id := SessionRow(s.events[n].sessions[m].facts, Archive, Some(at))];
    assert IsAt(s, n, m, id) && Reached(n, m, n, m + 1);
    forall i, j | 0 <= i < |s.events| && 0 <= j < |s.events[i].sessions| && Reached(i, j, n, m + 1)
      ensures var k := SessionId(s.events[i].round, s.events[i].sessions[j].key);
              k in after && after[k] == SessionRow(s.events[i].sessions[j].facts, Archive, Some(at))
    {
      if Reached(i, j, n, m) {
        assert IsAt(s, i, j, SessionId(s.events[i].round, s.events[i].sessions[j].key));
      }
    }
    forall k | WrittenSession(s, n, m, k) ensures WrittenSession(s, n, m + 1, k) {
      var i, j :| 0 <= i < |s.events| && 0 <= j < |s.events[i].sessions| && Reached(i, j, n, m) && IsAt(s, i, j, k);
      assert Reached(i, j, n, m + 1);
    }
  }

  lemma SessionsOfEventWritten(was: map<SessionId, SessionRow>, now: map<SessionId, SessionRow>, s: Schedule, n: nat,
                               at: int)
    requires n < |s.events| && SessionsWritten(was, now, s, n, |s.events[n].sessions|, at)
    ensures SessionsWritten(was, now, s, n + 1, 0, at)
  {
    var m := |s.events[n].sessions|;
    forall i, j | 0 <= i < |s.events| && 0 <= j < |s.events[i].sessions| && Reached(i, j, n + 1, 0)
      ensures Reached(i, j, n, m) {
    }
    forall k | WrittenSession(s, n, m, k) ensures WrittenSession(s, n + 1, 0, k) {
      var i, j :| 0 <= i < |s.events| && 0 <= j < |s.events[i].sessions| && Reached(i, j, n, m) && IsAt(s, i, j, k);
      assert Reached(i, j, n + 1, 0);
    }
  }

  // ---------------------------------------------------------------- the calendar tables

  datatype RefreshOutcome = StillFresh | ScheduleNeeded | ScheduleStored | Conflict

  class SeasonStore {
    const settings: Settings
    const season: int
    var checkedAt: Option<int>
    var validUntil: Option<int>
    var events: map<Round, EventRow>
    var sessions: map<SessionId, SessionRow>
    var deferred: map<Round, DeferredRow>
    /** The last schedule that was stored. */
    ghost var last: Option<Schedule>

    ghost function Contents(): Calendar
      reads this
    {
      Calendar(checkedAt, validUntil, events, sessions, deferred)
    }

    /** After any sequence of refreshes, readers see exactly the last stored schedule. */
    ghost predicate Valid()
      reads this
    {
      && MarksBounded(Contents())
      && (checkedAt.Some? <==> last.Some?)
      && (last.Some? ==> Shows(Contents(), last.value))
    }

    /** A season that has never been refreshed; rows from before marks existed carry none. */
    constructor (settings: Settings, season: int, events: map<Round, EventRow>, sessions: map<SessionId, SessionRow>)
      requires forall round :: round in events ==> events[round].discoveredAt.None?
      requires forall id :: id in sessions ==> sessions[id].discoveredAt.None?
      ensures Valid() && last.None? && this.settings == settings && this.season == season
    {
      this.settings, this.season, this.events, this.sessions := settings, season, events, sessions;
      checkedAt, validUntil, deferred, last := None, None, map[], None;
    }

    /** Writes the sessions of event `n`; stops at one that another source owns. */
    method WriteSessions(s: Schedule, n: nat, at: int, ghost was: map<SessionId, SessionRow>) returns (ok: bool)
      requires s.WellFormed() && n < |s.events| && SessionsWritten(was, sessions, s, n, 0, at)
      modifies this`sessions
      ensures ok ==> SessionsWritten(was, sessions, s, n + 1, 0, at)
      ensures ok <==> forall j :: 0 <= j < |s.events[n].sessions| ==> !ForeignSession(was, s, n, j)
    {
      for m := 0 to |s.events[n].sessions|
        invariant SessionsWritten(was, sessions, s, n, m, at)
        invariant forall j :: 0 <= j < m ==> !ForeignSession(was, s, n, j)
      {
        var scheduled := s.events[n].sessions[m];
        var id := SessionId(s.events[n].round, scheduled.key);
        SessionWritten(was, sessions, s, n, m, at);
        if id in sessions && sessions[id].source != Archive {
          assert ForeignSession(was, s, n, m);
          return false;
        }
        sessions := sessions[id := SessionRow(scheduled.facts, Archive, Some(at))];
      }
      SessionsOfEventWritten(was, sessions, s, n, at);
      return true;
    }

    /** Writes the schedule's events and sessions; stops at the first row that another source owns. */
    method WriteEvents(s: Schedule, at: int) returns (ok: bool)
      requires s.WellFormed()
      modifies this`events, this`sessions
      ensures ok ==> EventsWritten(old(events), events, s, |s.events|, at)
      ensures ok ==> SessionsWritten(old(sessions), sessions, s, |s.events|, 0, at)
      ensures ok <==> !SourceConflict(old(Contents()), s)
    {
      for n := 0 to |s.events|
        invariant EventsWritten(old(events), events, s, n, at) && SessionsWritten(old(sessions), sessions, s, n, 0, at)
        invariant forall i :: 0 <= i < n ==> NoConflictIn(old(Contents()), s, i)
      {
        var scheduled := s.events[n];
        EventWritten(old(events), events, s, n, at);
        if scheduled.round in events && events[scheduled.round].source != Archive {
          return false;
        }
        events := events[scheduled.round := EventRow(scheduled.facts, Archive, Some(at))];
        var written := WriteSessions(s, n, at, old(sessions));
        if !written {
          ghost var j :| 0 <= j < |s.events[n].sessions| && ForeignSession(old(sessions), s, n, j);
          return false;
        }
        assert NoConflictIn(old(Contents()), s, n);
      }
      ConflictIsSomewhere(old(Contents()), s);
      return true;
    }

    /** Upserts the deferred events and deletes the stale ones. */
    method WriteDeferred(s: Schedule, at: int)
      requires s.WellFormed()
      modifies this`deferred
      ensures DeferredWritten(deferred, s, at)
    {
      for i := 0 to |s.deferred|
        invariant forall k :: 0 <= k < i ==>
                    && s.deferred[k].round in deferred
                    && deferred[s.deferred[k].round] == DeferredRow(s.deferred[k].name, s.deferred[k].startAt, at)
      {
        deferred := deferred[s.deferred[i].round := DeferredRow(s.deferred[i].name, s.deferred[i].startAt, at)];
      }
      deferred := map round | round in deferred
        && (exists i :: 0 <= i < |s.deferred| && s.deferred[i].round == round) :: deferred[round];
    }

    /** One planning transaction: fresh coverage is left alone, stale coverage is replaced by the loaded schedule. */
    method RefreshIfStale(now: int, currentYear: int, loaded: Option<Schedule>) returns (outcome: RefreshOutcome)
      requires Valid() && settings.Valid() && (loaded.Some? ==> loaded.value.WellFormed())
      modifies this
      ensures Valid()
      ensures outcome.StillFresh? <==> old(validUntil).Some? && now < old(validUntil).value
      ensures outcome.ScheduleNeeded? <==> !(old(validUntil).Some? && now < old(validUntil).value) && loaded.None?
      ensures outcome.Conflict? <==>
                !(old(validUntil).Some? && now < old(validUntil).value) && loaded.Some?
                  && SourceConflict(old(Contents()), loaded.value)
      ensures outcome.ScheduleStored? ==> last == loaded
      ensures outcome.ScheduleStored? ==>
                Refreshed(old(Contents()), Contents(), loaded.value, now,
                          SECOND * (if season == currentYear then settings.currentSeasonCoverageTtl
                                    else settings.historicalSeasonCoverageTtl))
      ensures !outcome.ScheduleStored? ==> Contents() == old(Contents()) && last == old(last)
    {
      var coverage := Freshness.EvaluateSeasonCoverage(season, currentYear, validUntil, now, settings);
      if !coverage.refreshRequired {
        return StillFresh;
      }
      if loaded.None? {
        return ScheduleNeeded;
      }
      outcome := StoreSchedule(loaded.value, now, coverage.ttl);
    }

    method StoreSchedule(s: Schedule, now: int, ttl: int) returns (outcome: RefreshOutcome)
      requires Valid() && s.WellFormed() && 0 < ttl && (validUntil.Some? ==> validUntil.value <= now)
      modifies this
      ensures Valid()
      ensures outcome == if SourceConflict(old(Contents()), s) then Conflict else ScheduleStored
      ensures outcome.ScheduleStored? ==> last == Some(s) && Refreshed(old(Contents()), Contents(), s, now, ttl)
      ensures outcome.Conflict? ==> Contents() == old(Contents()) && last == old(last)
    {
      var savedEvents, savedSessions := events, sessions;
      var written := WriteEvents(s, now);
      if !written {
        events, sessions := savedEvents, savedSessions;
        assert Contents() == old(Contents());
        return Conflict;
      }
      WriteDeferred(s, now);
      checkedAt, validUntil, last := Some(now), Some(now + ttl), Some(s);
      RefreshShowsSchedule(old(Contents()), Contents(), s, now, ttl);
      return ScheduleStored;
    }
  }

  predicate NoConflictIn(c: Calendar, s: Schedule, i: nat)
    requires i < |s.events|
  {
    && (s.events[i].round in c.events ==> c.events[s.events[i].round].source == Archive)
    && forall j :: 0 <= j < |s.events[i].sessions| ==> !ForeignSession(c.sessions, s, i, j)
  }

  lemma ConflictIsSomewhere(c: Calendar, s: Schedule)
    requires forall i :: 0 <= i < |s.events| ==> NoConflictIn(c, s, i)
    ensures !SourceConflict(c, s)
  {
    forall i | 0 <= i < |s.events|
      ensures !(s.events[i].round in c.events && c.events[s.events[i].round].source != Archive)
      ensures forall j :: 0 <= j < |s.events[i].sessions| ==> !ForeignSession(c.sessions, s, i, j)
    {
      assert NoConflictIn(c, s, i);
    }
  }

  // ---------------------------------------------------------------- a stored schedule as a step of the control plane

  /** Row identities: one number for each session. */
  ghost predicate Numbering(number: SessionId -> int) {
    forall a, b :: number(a) == number(b) ==> a == b
  }

  /** What the control plane reads of a season's session rows. */
  ghost function RacesOf(season: int, sessions: map<SessionId, SessionRow>, number: SessionId -> int): map<int, C.Race>
    requires Numbering(number)
  {
    map id | id in sessions :: number(id) := C.Race(season, sessions[id].facts.endAt)
  }

  /** Storing a schedule is a calendar step of the control plane, whatever the other seasons hold. */
  lemma StoredScheduleIsRefresh(was: Calendar, now: Calendar, s: Schedule, at: int, ttl: int, season: int,
                                number: SessionId -> int, others: map<int, C.Race>)
    requires Refreshed(was, now, s, at, ttl) && Numbering(number)
    requires forall i :: i in others ==> others[i].season != season
    requires forall id :: id in now.sessions ==> number(id) !in others
    ensures C.RefreshesSeason(others + RacesOf(season, was.sessions, number), season,
                              others + RacesOf(season, now.sessions, number))
  {
    var before, after := RacesOf(season, was.sessions, number), RacesOf(season, now.sessions, number);
    forall i | i in before ensures i in after {
      var id :| id in was.sessions && number(id) == i;
      assert id in now.sessions;
    }
  }
}
