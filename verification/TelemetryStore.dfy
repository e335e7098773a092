/**
 The telemetry tables: requests and samples of laps, beside the sporting snapshot they depend on. Whatever resets,
 lease recoveries and archive replacements happen, a completed lap stores exactly the samples of one replace, and a
 reader gets them only while their snapshot is the session's current one.
 */
module TelemetryStore {
  import opened Wrappers
  import opened RuntimePolicy
  import opened TelemetryRow
  import opened KeysetPages

  type LapId = int
  type SessionId = int
  type EntryId = int

  /** A stored lap; its driver is missing when the entry has no usable identity. */
  datatype LapInfo = LapInfo(session: SessionId, entry: EntryId, number: int, driver: Option<string>)

  predicate UniqueLaps(laps: map<LapId, LapInfo>) {
    forall a, b :: a in laps && b in laps && a != b ==> DifferentLaps(laps[a], laps[b])
  }

  lemma ReplacedLapsAreUnique(laps: map<LapId, LapInfo>, removed: set<LapId>, added: map<LapId, LapInfo>)
    requires UniqueLaps(laps) && UniqueLaps(added)
    requires forall a, b :: a in added && b in laps && b !in removed ==> DifferentLaps(added[a], laps[b])
    ensures UniqueLaps((laps - removed) + added)
  {
  }

  predicate DifferentLaps(a: LapInfo, b: LapInfo) { a.entry != b.entry || a.number != b.number }

  /** The session's own ingestion: whether it is completed, and when it last was. */
  datatype Sporting = Sporting(completed: bool, completedAt: Option<int>)

  datatype Sample = Sample(lapTime: int, distance: Option<real>, speed: Option<real>, rpm: Option<int>,
                           gear: Option<int>)

  datatype SampleKey = SampleKey(lap: LapId, index: int)

  datatype TelemetryClaim = TelemetryClaim(lap: LapId, ticket: Ticket, claimedAt: int)

  datatype TelemetryError = LapNotFound | SnapshotNotCompleted | NotRequested | EmptySamples | OwnershipLost

  datatype Action = Queued | Reused | Available

  /** One committed replace: the samples it wrote, for the snapshot it was made from. */
  datatype Commit = Commit(snapshot: int, samples: seq<Sample>)

  /** The life of one lap's request so far: its rows, and the events between them. */
  datatype Life = Life(rows: seq<Request>, events: seq<Event>) {
    ghost predicate Ends(settings: Settings, r: Request) {
      Run(settings, rows, events) && rows[|events|] == r
    }
  }

  predicate Continues(earlier: Life, later: Life) {
    earlier.rows <= later.rows && earlier.events <= later.events
  }

  /** Every life that had begun has only gone on. */
  ghost predicate LivesContinue(earlier: map<LapId, Life>, later: map<LapId, Life>) {
    forall lap :: lap in earlier ==> lap in later && Continues(earlier[lap], later[lap])
  }

  lemma ContinueOn(first: map<LapId, Life>, second: map<LapId, Life>, third: map<LapId, Life>)
    requires LivesContinue(first, second) && LivesContinue(second, third)
    ensures LivesContinue(first, third)
  {
  }

  function Lived(life: Life, e: Event, r: Request): Life {
    Life(life.rows + [r], life.events + [e])
  }

  lemma LifeGoesOn(settings: Settings, life: Life, r: Request, e: Event, t: Request)
    requires life.Ends(settings, r) && Step(settings, r, e, t)
    ensures Lived(life, e, t).Ends(settings, t)
  {
  }

  datatype TelemetryPage = TelemetryPage(
    available: bool, compatible: bool, items: seq<Keyed<Sample>>, hasMore: bool, next: Option<int>)

  /** The lap's sample rows are exactly these samples, numbered from zero. */
  ghost predicate Stores(samples: map<SampleKey, Sample>, lap: LapId, rows: seq<Sample>) {
    && (forall i :: 0 <= i < |rows| ==> SampleKey(lap, i) in samples && samples[SampleKey(lap, i)] == rows[i])
    && (forall k :: k in samples && k.lap == lap ==> 0 <= k.index < |rows|)
  }

  /** A completed request: some commit for its snapshot is what the lap stores. */
  ghost predicate Backed(lap: LapId, r: Request, commits: map<LapId, Commit>, samples: map<SampleKey, Sample>) {
    r.status == TelemetryRow.Completed ==>
      && lap in commits && commits[lap].snapshot == r.snapshot
      && r.sampleCount == |commits[lap].samples| && 0 < r.sampleCount
      && Stores(samples, lap, commits[lap].samples)
  }

  /** The samples of every other lap are what they were. */
  ghost predicate SameElsewhere(was: map<SampleKey, Sample>, now: map<SampleKey, Sample>, lap: LapId) {
    forall k: SampleKey :: k.lap != lap ==> (k in now <==> k in was) && (k in was ==> now[k] == was[k])
  }

  lemma StoresElsewhere(was: map<SampleKey, Sample>, now: map<SampleKey, Sample>, lap: LapId, rows: seq<Sample>)
    requires Stores(was, lap, rows)
    requires forall k: SampleKey :: k.lap == lap ==> (k in now <==> k in was) && (k in was ==> now[k] == was[k])
    ensures Stores(now, lap, rows)
  {
  }

  /** The page of a stored lap past a cursor: consecutive samples, at most `limit` of them. */
  function StoredRows(rows: seq<Sample>): (r: seq<Keyed<Sample>>)
    ensures |r| == |rows| && forall i :: 0 <= i < |rows| ==> r[i] == Keyed(i, rows[i])
  {
    seq(|rows|, i requires 0 <= i < |rows| => Keyed(i, rows[i]))
  }

  /** The queue order: never-retried requests first, then by retry instant, request instant and lap. */
  predicate QueuedBefore(requests: map<LapId, Request>, a: LapId, b: LapId)
    requires a in requests && b in requests
  {
    var x, y := requests[a], requests[b];
    if x.nextRetryAt != y.nextRetryAt then
      x.nextRetryAt.None? || (y.nextRetryAt.Some? && x.nextRetryAt.value < y.nextRetryAt.value)
    else if x.requestedAt != y.requestedAt then x.requestedAt < y.requestedAt
    else a < b
  }

  /** The same order, spelled out: no retry before any retry, then the earlier request, then the lower lap. */
  ghost predicate NoLaterInLine(requests: map<LapId, Request>, a: LapId, b: LapId) {
    && a in requests && b in requests
    && (requests[a].nextRetryAt.Some? ==>
          requests[b].nextRetryAt.Some? && requests[a].nextRetryAt.value <= requests[b].nextRetryAt.value)
    && (requests[a].nextRetryAt == requests[b].nextRetryAt ==>
          && requests[a].requestedAt <= requests[b].requestedAt
          && (requests[a].requestedAt == requests[b].requestedAt ==> a <= b))
  }

  predicate NoYoungerBeat(requests: map<LapId, Request>, a: LapId, b: LapId) {
    a in requests && b in requests && requests[a].heartbeatAt.Some? && requests[b].heartbeatAt.Some?
    && requests[a].heartbeatAt.value <= requests[b].heartbeatAt.value
  }

  /** Another request, beaten no later. */
  predicate OlderBeat(requests: map<LapId, Request>, a: LapId, b: LapId) {
    a != b && NoYoungerBeat(requests, a, b)
  }

  function AnySample(): Keyed<Sample> -> bool { (s: Keyed<Sample>) => true }

  class TelemetryTables {
    const settings: Settings
    var laps: map<LapId, LapInfo>
    var sporting: map<SessionId, Sporting>
    var requests: map<LapId, Request>
    var samples: map<SampleKey, Sample>
    /** The last committed replace of each lap. */
    ghost var commits: map<LapId, Commit>
    /** The life of every request ever made, and every lap identity ever handed out. */
    ghost var lives: map<LapId, Life>
    ghost var used: set<LapId>

    /** Foreign keys, the unique lap key, and the invariant of completed laps. */
    ghost predicate Valid()
      reads this
    {
      && settings.Valid()
      && requests.Keys <= laps.Keys
      && (forall k :: k in samples ==> k.lap in laps)
      && UniqueLaps(laps)
      && (forall lap :: lap in requests ==> Backed(lap, requests[lap], commits, samples))
      && LivesInv()
    }

    /** Each request is where its life has led, and a lap that is gone is gone for good. */
    ghost predicate LivesInv()
      reads this`laps, this`requests, this`lives, this`used
    {
      && laps.Keys <= used && lives.Keys <= used
      && (forall lap :: lap in requests ==>
            lap in lives && lives[lap].Ends(settings, requests[lap]) && Sane(settings, requests[lap]))
      && (forall lap :: lap in lives && lap in laps ==> lap in requests)
    }

    /** Lives only go on, and removed laps do not return. */
    twostate predicate Onward()
      reads this`laps, this`lives, this`used
    {
      && old(used) <= used
      && (forall lap :: lap in old(used) && lap in laps ==> lap in old(laps))
      && LivesContinue(old(lives), lives)
    }

    constructor (settings: Settings)
      requires settings.Valid()
      ensures Valid() && laps == map[] && requests == map[]
    {
      this.settings := settings;
      laps, sporting, requests, samples, commits := map[], map[], map[], map[], map[];
      lives, used := map[], {};
    }

    /** Enters what has just happened to a lap's request in its life. */
    ghost method Enter(lap: LapId, e: Event, was: Request)
      requires lap in requests && lap in lives && lives[lap].Ends(settings, was)
               && Step(settings, was, e, requests[lap])
      requires settings.Valid() && Sane(settings, was)
      modifies this`lives
      ensures lives == old(lives)[lap := Lived(old(lives)[lap], e, requests[lap])]
      ensures lives[lap].Ends(settings, requests[lap]) && Sane(settings, requests[lap])
      ensures Writes(settings, was, e, requests[lap])
    {
      EveryEventWrites(settings, was, e, requests[lap]);
      LifeGoesOn(settings, lives[lap], was, e, requests[lap]);
      lives := lives[lap := Lived(lives[lap], e, requests[lap])];
    }

    function SnapshotOf(lap: LapId): Option<int>
      requires lap in laps
      reads this
    {
      var session := laps[lap].session;
      if session in sporting then sporting[session].completedAt else None
    }

    predicate SnapshotCompleted(lap: LapId)
      requires lap in laps
      reads this
    {
      var session := laps[lap].session;
      session in sporting && sporting[session].completed && sporting[session].completedAt.Some?
    }

    predicate IsLap(lap: LapId, session: SessionId, entry: EntryId, number: int)
      reads this
    {
      lap in laps && laps[lap].session == session && laps[lap].entry == entry && laps[lap].number == number
    }

    method FindLap(session: SessionId, entry: EntryId, number: int) returns (r: Option<LapId>)
      requires Valid()
      ensures r.Some? ==> IsLap(r.value, session, entry, number)
      ensures forall lap :: IsLap(lap, session, entry, number) ==> r == Some(lap)
    {
      if lap :| lap in laps && IsLap(lap, session, entry, number) {
        return Some(lap);
      }
      return None;
    }

    /** Creates, keeps or renews the one request of a lap. */
    method Ensure(session: SessionId, entry: EntryId, number: int, now: int)
        returns (r: Result<(LapId, Action), TelemetryError>)
      requires Valid()
      modifies this`requests, this`lives
      ensures Valid() && Onward()
      ensures r.Err? ==> requests == old(requests)
      ensures r == Err(LapNotFound) ==> forall lap :: !IsLap(lap, session, entry, number)
      ensures r == Err(SnapshotNotCompleted) ==>
              exists lap :: IsLap(lap, session, entry, number) && !SnapshotCompleted(lap)
      ensures forall lap :: IsLap(lap, session, entry, number) && SnapshotCompleted(lap) ==> r.Ok?
      ensures r.Err? ==> r == Err(LapNotFound) || r == Err(SnapshotNotCompleted)
      ensures r.Ok? ==>
                && IsLap(r.value.0, session, entry, number) && SnapshotCompleted(r.value.0)
                && laps[r.value.0].session == session && laps[r.value.0].entry == entry
                && laps[r.value.0].number == number
                && var lap, snapshot := r.value.0, SnapshotOf(r.value.0).value;
                   && requests == old(requests)[lap := if lap in old(requests)
                                                then Ensured(old(requests)[lap], now, snapshot)
                                                       else FreshRequest(now, snapshot)]
                   && (lap in old(requests) ==>
                         Writes(settings, old(requests)[lap], Event.Ensure(now, snapshot), requests[lap]))
                   && (r.value.1 == Available <==>
                         old(lap in requests && Kept(requests[lap], snapshot))
                           && old(requests)[lap].status == Completed)
                   && (r.value.1 == Queued <==> !old(lap in requests && Kept(requests[lap], snapshot)))
                   && requests[lap].snapshot == snapshot
                   && (r.value.1 == Available ==> requests[lap].status == Completed && 0 < requests[lap].sampleCount)
                   && (r.value.1 == Reused ==> requests[lap].status == Pending || requests[lap].status == Running)
                   && (r.value.1 == Queued ==>
                         requests[lap]
                         == Request(Pending, 0, 0, now, None, None, None, None, None, snapshot, None))
    {
      var found := FindLap(session, entry, number);
      if found.None? {
        return Err(LapNotFound);
      }
      var lap := found.value;
      if !SnapshotCompleted(lap) {
        return Err(SnapshotNotCompleted);
      }
      var snapshot := SnapshotOf(lap).value;
      if lap !in requests {
        requests := requests[lap := FreshRequest(now, snapshot)];
        lives := lives[lap := Life([FreshRequest(now, snapshot)], [])];
        return Ok((lap, Queued));
      }
      var request := requests[lap];
      if request.status == Completed && request.snapshot == snapshot && 0 < request.sampleCount {
        assert requests == requests[lap := request];
        return Ok((lap, Available));
      }
      if (request.status == Pending || request.status == Running) && request.snapshot == snapshot {
        assert requests == requests[lap := request];
        return Ok((lap, Reused));
      }
      requests := requests[lap := FreshRequest(now, snapshot)];
      Enter(lap, Event.Ensure(now, snapshot), request);
      return Ok((lap, Queued));
    }

    predicate Eligible(lap: LapId, now: int)
      reads this
    {
      && lap in requests && lap in laps
      && Claimable(settings, requests[lap], now)
      && SnapshotCompleted(lap) && SnapshotOf(lap) == Some(requests[lap].snapshot)
    }

    /** The lap has no driver identity, so its request has failed. */
    ghost predicate FailedFor(was: map<LapId, Request>, lap: LapId)
      reads this
    {
      && lap in laps && laps[lap].driver.None? && lap in was && requests == was[lap := Unidentified(was[lap])]
      && Writes(settings, was[lap], Refuse, requests[lap])
    }

    /** The head of the queue: no other eligible request comes before it. */
    ghost predicate IsNext(lap: LapId, now: int)
      reads this
    {
      && Eligible(lap, now)
      && forall other :: Eligible(other, now) && other != lap ==> QueuedBefore(requests, lap, other)
    }

    /** A pending request with attempts left, due, for the session's current completed snapshot. */
    ghost predicate Waits(lap: LapId, now: int)
      reads this
    {
      && lap in requests && lap in laps && laps[lap].session in sporting
      && requests[lap].status == Pending && requests[lap].attempts < settings.maxAttempts
      && (requests[lap].nextRetryAt.None? || requests[lap].nextRetryAt.value <= now)
      && sporting[laps[lap].session].completed
      && sporting[laps[lap].session].completedAt == Some(requests[lap].snapshot)
    }

    method SelectNext(now: int) returns (head: Option<LapId>)
      ensures head.None? ==> forall lap :: !Eligible(lap, now)
      ensures head.Some? ==> IsNext(head.value, now)
    {
      head := None;
      var left := requests.Keys;
      while true
        invariant left <= requests.Keys
        invariant head.None? ==> forall lap :: lap in requests && lap !in left ==> !Eligible(lap, now)
        invariant head.Some? ==> head.value in requests && head.value !in left && Eligible(head.value, now)
        invariant head.Some? ==>
                    forall lap :: lap in requests && lap !in left && lap != head.value && Eligible(lap, now) ==>
                      QueuedBefore(requests, head.value, lap)
        decreases left
      {
        if lap :| lap in left {
          left := left - {lap};
          if Eligible(lap, now) && (head.None? || QueuedBefore(requests, lap, head.value)) {
            head := Some(lap);
          }
        } else {
          break;
        }
      }
    }

    lemma WaitingIsEligible(now: int)
      ensures forall lap :: Waits(lap, now) <==> Eligible(lap, now)
    {
    }

    lemma NextIsFirstInLine(head: LapId, now: int)
      requires IsNext(head, now)
      ensures forall lap :: Waits(lap, now) ==> NoLaterInLine(requests, head, lap)
    {
      forall lap | Waits(lap, now) ensures NoLaterInLine(requests, head, lap) {
        assert Eligible(lap, now);
        assert lap != head ==> QueuedBefore(requests, head, lap);
      }
    }

    /** Claims the head of the queue; if its entry has no driver identity, the request fails instead. */
    method ClaimNext(now: int) returns (claim: Option<TelemetryClaim>)
      requires Valid()
      modifies this`requests, this`lives
      ensures Valid() && Onward()
      ensures claim.Some? ==>
                && old(IsNext(claim.value.lap, now))
                && requests == old(requests)[claim.value.lap := Claimed(old(requests)[claim.value.lap], now)]
                && Writes(settings, old(requests)[claim.value.lap], Event.Claim(now), requests[claim.value.lap])
                && HeldBy(requests[claim.value.lap], claim.value.ticket) && claim.value.claimedAt == now
                && claim.value.lap in old(lives)
                && lives[claim.value.lap]
                   == Lived(old(lives)[claim.value.lap], Event.Claim(now), requests[claim.value.lap])
      ensures claim.Some? ==> forall lap :: old(Waits(lap, now)) ==> NoLaterInLine(old(requests), claim.value.lap, lap)
      ensures claim.None? ==>
                || (requests == old(requests) && forall lap :: !Eligible(lap, now) && !Waits(lap, now))
                || (exists lap :: old(IsNext(lap, now)) && FailedFor(old(requests), lap))
    {
      var head := SelectNext(now);
      WaitingIsEligible(now);
      if head.None? {
        return None;
      }
      var lap := head.value;
      NextIsFirstInLine(lap, now);
      ghost var was := requests[lap];
      if laps[lap].driver.None? {
        requests := requests[lap := Unidentified(requests[lap])];
        Enter(lap, Refuse, was);
        return None;
      }
      var running := Claimed(requests[lap], now);
      requests := requests[lap := running];
      Enter(lap, Event.Claim(now), was);
      return Some(TelemetryClaim(lap, Ticket(running.attempts, running.snapshot), now));
    }

    predicate HoldsClaim(claim: TelemetryClaim)
      reads this
    {
      claim.lap in requests && Owns(requests[claim.lap], claim.ticket)
    }

    method Heartbeat(claim: TelemetryClaim, now: int) returns (ok: bool)
      requires Valid()
      modifies this`requests, this`lives
      ensures Valid() && Onward() && ok == old(HoldsClaim(claim))
      ensures requests == if ok then old(requests)[claim.lap := Beaten(old(requests)[claim.lap], now)]
              else old(requests)
      ensures ok ==> Writes(settings, old(requests)[claim.lap], Beat(now, claim.ticket), requests[claim.lap])
    {
      if !HoldsClaim(claim) {
        return false;
      }
      ghost var was := requests[claim.lap];
      requests := requests[claim.lap := Beaten(requests[claim.lap], now)];
      Enter(claim.lap, Beat(now, claim.ticket), was);
      return true;
    }

    /** Deletes the lap's samples, inserts the new ones and completes the request, all for the claimed snapshot. */
    method Replace(claim: TelemetryClaim, rows: seq<Sample>, now: int) returns (r: Result<nat, TelemetryError>)
      requires Valid()
      modifies this`requests, this`samples, this`commits, this`lives
      ensures Valid() && Onward()
      ensures r.Ok? <==>
                rows != [] && old(HoldsClaim(claim)) && claim.lap in laps
                  && SnapshotOf(claim.lap) == Some(claim.ticket.snapshot)
      ensures r.Ok? ==>
                && r.value == |rows|
                && requests == old(requests)[claim.lap := Stored(old(requests)[claim.lap], now, |rows|)]
                && Writes(settings, old(requests)[claim.lap], Store(now, claim.ticket, |rows|), requests[claim.lap])
                && Stores(samples, claim.lap, rows)
                && commits == old(commits)[claim.lap := Commit(claim.ticket.snapshot, rows)]
                && SameElsewhere(old(samples), samples, claim.lap)
      ensures r.Err? ==> requests == old(requests) && samples == old(samples) && commits == old(commits)
    {
      if rows == [] {
        return Err(EmptySamples);
      }
      if !HoldsClaim(claim) || SnapshotOf(claim.lap) != Some(claim.ticket.snapshot) {
        return Err(OwnershipLost);
      }
      WriteSamples(claim.lap, rows);
      ghost var was := requests[claim.lap];
      requests := requests[claim.lap := Stored(requests[claim.lap], now, |rows|)];
      Enter(claim.lap, Store(now, claim.ticket, |rows|), was);
      commits := commits[claim.lap := Commit(claim.ticket.snapshot, rows)];
      forall lap | lap in requests ensures Backed(lap, requests[lap], commits, samples) {
        if lap != claim.lap && requests[lap].status == Completed {
          assert Backed(lap, old(requests)[lap], old(commits), old(samples));
          StoresElsewhere(old(samples), samples, lap, commits[lap].samples);
        }
      }
      return Ok(|rows|);
    }

    method WriteSamples(lap: LapId, rows: seq<Sample>)
      requires lap in laps && forall k :: k in samples ==> k.lap in laps
      modifies this`samples
      ensures Stores(samples, lap, rows) && forall k :: k in samples ==> k.lap in laps
      ensures SameElsewhere(old(samples), samples, lap)
    {
      samples := map k | k in samples && k.lap != lap :: samples[k];
      for i := 0 to |rows|
        invariant Stores(samples, lap, rows[..i]) && forall k :: k in samples ==> k.lap in laps
        invariant SameElsewhere(old(samples), samples, lap)
      {
        samples := samples[SampleKey(lap, i) := rows[i]];
      }
      assert rows[..|rows|] == rows;
    }

    method Fail(claim: TelemetryClaim, retryable: bool, error: Diagnostic, jitter: real, now: int) returns (ok: bool)
      requires Valid()
      modifies this`requests, this`lives
      ensures Valid() && Onward() && ok == old(HoldsClaim(claim))
      ensures !ok ==> requests == old(requests)
      ensures ok ==>
                requests == old(requests)[claim.lap :=
                                          Released(settings, old(requests)[claim.lap], now, retryable, jitter, error)]
      ensures ok ==> LetGo(settings, old(requests)[claim.lap], now, retryable, jitter, error, requests[claim.lap])
    {
      if !HoldsClaim(claim) {
        return false;
      }
      ghost var was := requests[claim.lap];
      requests := requests[claim.lap := Released(settings, requests[claim.lap], now, retryable, jitter, error)];
      Enter(claim.lap, Event.Fail(now, claim.ticket, retryable, jitter, error), was);
      return true;
    }

    /** The oldest expired lease that has not been picked yet. */
    method SelectStale(now: int, picked: seq<LapId>) returns (next: Option<LapId>)
      ensures next.None? ==> forall lap :: StaleLap(lap, now) ==> lap in picked
      ensures next.Some? ==>
                && StaleLap(next.value, now) && next.value !in picked
                && forall lap :: StaleLap(lap, now) && lap !in picked ==>
                     requests[next.value].heartbeatAt.value <= requests[lap].heartbeatAt.value
    {
      next := None;
      var left := requests.Keys;
      while true
        invariant left <= requests.Keys
        invariant next.None? ==> forall lap :: lap !in left && StaleLap(lap, now) ==> lap in picked
        invariant next.Some? ==> next.value !in picked && StaleLap(next.value, now)
        invariant next.Some? ==>
                    forall lap :: lap !in left && StaleLap(lap, now) && lap !in picked ==>
                      requests[next.value].heartbeatAt.value <= requests[lap].heartbeatAt.value
        decreases left
      {
        if lap :| lap in left {
          left := left - {lap};
          if && Stale(settings, requests[lap], now) && lap !in picked
             && (next.None? || requests[lap].heartbeatAt.value < requests[next.value].heartbeatAt.value)
          {
            next := Some(lap);
          }
        } else {
          break;
        }
      }
    }

    predicate StaleLap(lap: LapId, now: int)
      reads this
    {
      lap in requests && Stale(settings, requests[lap], now)
    }

    /** The recovery query: at most `batch` expired leases, oldest first. */
    method SelectBatch(now: int, batch: nat) returns (picked: seq<LapId>)
      ensures |picked| <= batch && forall i :: 0 <= i < |picked| ==> StaleLap(picked[i], now)
      ensures forall i, j :: 0 <= i < j < |picked| ==> OlderBeat(requests, picked[i], picked[j])
      ensures forall lap :: StaleLap(lap, now) && lap !in picked ==>
                |picked| == batch && forall i :: 0 <= i < |picked| ==> NoYoungerBeat(requests, picked[i], lap)
    {
      picked := [];
      while |picked| < batch
        invariant |picked| <= batch && forall i :: 0 <= i < |picked| ==> StaleLap(picked[i], now)
        invariant forall i, j :: 0 <= i < j < |picked| ==> OlderBeat(requests, picked[i], picked[j])
        invariant forall lap, i :: StaleLap(lap, now) && lap !in picked && 0 <= i < |picked| ==>
                    NoYoungerBeat(requests, picked[i], lap)
        decreases batch - |picked|
      {
        var next := SelectStale(now, picked);
        if next.None? {
          return;
        }
        picked := picked + [next.value];
      }
    }

    /** Releases the oldest expired leases, at most `batch`, each with its own jitter. */
    method RecoverStale(now: int, batch: nat, jitters: seq<real>) returns (picked: seq<LapId>)
      requires Valid() && |jitters| == batch
      modifies this`requests, this`lives
      ensures Valid() && Onward() && |picked| <= batch && requests.Keys == old(requests).Keys
      ensures forall i :: 0 <= i < |picked| ==> old(StaleLap(picked[i], now))
      ensures forall i, j :: 0 <= i < j < |picked| ==>
                && OlderBeat(old(requests), picked[i], picked[j])
                && old(requests)[picked[i]].heartbeatAt.value <= old(requests)[picked[j]].heartbeatAt.value
      ensures forall lap :: old(StaleLap(lap, now)) && lap !in picked ==>
                |picked| == batch && forall i :: 0 <= i < |picked| ==> NoYoungerBeat(old(requests), picked[i], lap)
      ensures forall i :: 0 <= i < |picked| ==> ReleasedAt(old(requests), requests, picked[i], now, jitters[i])
      ensures forall lap :: lap in requests && lap !in picked ==> requests[lap] == old(requests)[lap]
    {
      picked := SelectBatch(now, batch);
      for n := 0 to |picked|
        invariant Valid() && Onward() && ReleasedFirst(old(requests), requests, picked, n, now, jitters)
      {
        ghost var before, were := lives, requests;
        assert picked[n] !in picked[..n];
        Expire(picked[n], now, jitters[n]);
        ContinueOn(old(lives), before, lives);
        ReleasedOneMore(old(requests), were, requests, picked, n, now, jitters);
      }
    }

    /** The first `n` of the picked leases are released and nothing else has changed. */
    ghost predicate ReleasedFirst(before: map<LapId, Request>, after: map<LapId, Request>, picked: seq<LapId>, n: nat,
                                  now: int, jitters: seq<real>)
      requires n <= |picked| <= |jitters|
    {
      && after.Keys == before.Keys
      && (forall i :: 0 <= i < n ==> ReleasedAt(before, after, picked[i], now, jitters[i]))
      && (forall lap :: lap in after && lap !in picked[..n] ==> after[lap] == before[lap])
    }

    lemma ReleasedOneMore(before: map<LapId, Request>, mid: map<LapId, Request>, after: map<LapId, Request>,
                          picked: seq<LapId>, n: nat, now: int, jitters: seq<real>)
      requires n < |picked| <= |jitters| && picked[n] !in picked[..n]
      requires ReleasedFirst(before, mid, picked, n, now, jitters) && picked[n] in mid
      requires ReleasedAt(mid, after, picked[n], now, jitters[n]) && after == mid[picked[n] := after[picked[n]]]
      ensures ReleasedFirst(before, after, picked, n + 1, now, jitters)
    {
      assert picked[..n + 1] == picked[..n] + [picked[n]];
      forall i | 0 <= i < n ensures ReleasedAt(before, after, picked[i], now, jitters[i]) {
        assert picked[i] in picked[..n];
      }
    }

    /** Releases one expired lease. */
    method Expire(lap: LapId, now: int, jitter: real)
      requires Valid() && StaleLap(lap, now)
      modifies this`requests, this`lives
      ensures Valid() && Onward() && ReleasedAt(old(requests), requests, lap, now, jitter)
      ensures requests == old(requests)[lap := requests[lap]]
    {
      ghost var was := requests[lap];
      requests := requests[lap := Released(settings, requests[lap], now, true, jitter, LeaseExpired)];
      Enter(lap, Recover(now, jitter), was);
    }

    ghost predicate ReleasedAt(before: map<LapId, Request>, after: map<LapId, Request>, lap: LapId, now: int,
                               jitter: real) {
      && lap in before && lap in after && after[lap] == Released(settings, before[lap], now, true, jitter, LeaseExpired)
      && LetGo(settings, before[lap], now, true, jitter, LeaseExpired, after[lap])
    }

    /**
     The archive replaces a session: laps come and go, and with a lap go its request and samples. A new lap has a new
     identity, never one that was used before.
     */
    method ArchiveReplaced(session: SessionId, completedAt: int, removed: set<LapId>, added: map<LapId, LapInfo>)
      requires Valid()
      requires added.Keys !! used && forall lap :: lap in removed && lap in laps ==> laps[lap].session == session
      requires UniqueLaps(added)
      requires forall a, b :: a in added && b in laps && b !in removed ==> DifferentLaps(added[a], laps[b])
      modifies this`laps, this`sporting, this`requests, this`samples, this`used
      ensures Valid() && Onward() && sporting == old(sporting)[session := Sporting(true, Some(completedAt))]
      ensures laps == (old(laps) - removed) + added && used == old(used) + added.Keys
      ensures samples == map k | k in old(samples) && k.lap !in removed :: old(samples)[k]
      ensures forall lap :: lap in requests <==> lap in old(requests) && lap !in removed
      ensures forall lap :: lap in requests ==> requests[lap] == old(requests)[lap]
    {
      sporting := sporting[session := Sporting(true, Some(completedAt))];
      ReplacedLapsAreUnique(laps, removed, added);
      laps := (laps - removed) + added;
      used := used + added.Keys;
      requests := requests - removed;
      samples := map k | k in samples && k.lap !in removed :: samples[k];
      forall lap | lap in requests ensures Backed(lap, requests[lap], commits, samples) {
        assert Backed(lap, old(requests)[lap], commits, old(samples));
        if requests[lap].status == Completed {
          StoresElsewhere(old(samples), samples, lap, commits[lap].samples);
        }
      }
    }

    /** The backfill claims, fails or releases the session without replacing it. */
    method SportingChanged(session: SessionId, value: Sporting)
      requires Valid()
      modifies this`sporting
      ensures Valid() && Onward() && sporting == old(sporting)[session := value]
    {
      sporting := sporting[session := value];
    }

    /** Since entry `i` of its life the lap was not asked for anew under the ticket's snapshot. */
    ghost predicate NotRenewedSince(lap: LapId, ticket: Ticket, i: nat)
      requires Valid() && lap in requests
      reads this
    {
      forall k {:trigger lives[lap].events[k]} :: i < k < |lives[lap].events| ==>
        !ResetsFor(lives[lap].rows[k], lives[lap].events[k], ticket)
    }

    /**
     Main result for the store: a ticket that stopped owning its lap at some point of the lap's life holds no claim
     now, unless the lap was requested anew under the same snapshot since.
     */
    lemma LostTicketHoldsNoClaim(lap: LapId, ticket: Ticket, i: nat, claimedAt: int)
      requires Valid() && lap in requests && i < |lives[lap].events|
      requires Owns(lives[lap].rows[i], ticket) && !Owns(lives[lap].rows[i + 1], ticket)
               && NotRenewedSince(lap, ticket, i)
      ensures !HoldsClaim(TelemetryClaim(lap, ticket, claimedAt))
    {
      var rows, events := lives[lap].rows, lives[lap].events;
      if i + 1 < |events| {
        EndedTicketStaysDead(settings, rows, events, ticket, i, |events|);
      }
    }

    /**
     Two claims in one lap's life carry different tickets unless it was requested anew under the first one's snapshot.
     */
    lemma ClaimsOfOneLapDiffer(lap: LapId, i: nat, j: nat)
      requires Valid() && lap in requests && i < j < |lives[lap].events|
      requires lives[lap].events[i].Claim? && lives[lap].events[j].Claim?
      requires NotRenewedSince(lap, TicketOf(lives[lap].rows[i + 1]), i)
      ensures TicketOf(lives[lap].rows[i + 1]) != TicketOf(lives[lap].rows[j + 1])
    {
      TicketsDiffer(settings, lives[lap].rows, lives[lap].events, i, j);
    }

    /** With a removed lap every ticket for it is gone; `Onward` says that the lap does not return. */
    lemma RemovedLapHoldsNoClaim(lap: LapId, ticket: Ticket, claimedAt: int)
      requires Valid() && lap !in laps
      ensures !HoldsClaim(TelemetryClaim(lap, ticket, claimedAt))
    {
    }

    /** The read endpoint: rows only while the completed request is for the session's current snapshot. */
    method Read(session: SessionId, entry: EntryId, number: int, after: Option<int>, limit: nat)
        returns (r: Result<TelemetryPage, TelemetryError>)
      requires Valid() && 1 <= limit
      ensures r == Err(LapNotFound) <==> forall lap :: !IsLap(lap, session, entry, number)
      ensures r == Err(SnapshotNotCompleted) <==>
              exists lap :: IsLap(lap, session, entry, number) && !SnapshotCompleted(lap)
      ensures r == Err(NotRequested) <==>
                exists lap :: IsLap(lap, session, entry, number) && SnapshotCompleted(lap) && lap !in requests
      ensures r.Ok? <==> exists lap :: IsLap(lap, session, entry, number) && SnapshotCompleted(lap) && lap in requests
      ensures r.Ok? ==>
                exists lap ::
                  IsLap(lap, session, entry, number) && lap in requests && PageShows(lap, after, limit, r.value)
    {
      var found := FindLap(session, entry, number);
      if found.None? {
        return Err(LapNotFound);
      }
      var lap := found.value;
      assert IsLap(lap, session, entry, number);
      if !SnapshotCompleted(lap) {
        return Err(SnapshotNotCompleted);
      }
      if lap !in requests {
        return Err(NotRequested);
      }
      var request := requests[lap];
      var compatible := SnapshotOf(lap) == Some(request.snapshot);
      var available := compatible && request.status == Completed && 0 < request.sampleCount;
      if !available {
        return Ok(TelemetryPage(false, compatible, [], false, None));
      }
      assert Backed(lap, request, commits, samples);
      var rows := SelectSamples(lap, after, limit + 1, commits[lap].samples);
      var hasMore := limit < |rows|;
      var items := if hasMore then rows[..limit] else rows;
      assert IsLap(lap, session, entry, number);
      var page := TelemetryPage(true, true, items, hasMore, if hasMore then Some(items[|items| - 1].key) else None);
      return Ok(page);
    }

    /** What a page may contain: nothing, or one keyset page of the committed samples of the current snapshot. */
    ghost predicate PageShows(lap: LapId, after: Option<int>, limit: nat, page: TelemetryPage)
      requires 1 <= limit
      reads this
    {
      && lap in requests && lap in laps
      && (page.compatible <==> SnapshotOf(lap) == Some(requests[lap].snapshot))
      && (page.available <==> page.compatible && requests[lap].status == Completed)
      && if !page.available then
        page.items == [] && !page.hasMore && page.next == None
      else
        && lap in commits && SnapshotOf(lap) == Some(commits[lap].snapshot)
        && var whole := PageOf(Matching(StoredRows(commits[lap].samples), AnySample(), after), limit);
           page.items == whole.items && page.hasMore == whole.hasMore && page.next == whole.next
    }

    /** The first `count` samples past the cursor, by index. */
    method SelectSamples(lap: LapId, after: Option<int>, count: nat, ghost stored: seq<Sample>)
        returns (rows: seq<Keyed<Sample>>)
      requires Stores(samples, lap, stored)
      ensures rows == FirstRows(stored, after, count)
    {
      var left := set k | k in samples && k.lap == lap && Beyond(k.index, after);
      rows := [];
      ghost var all, from := StoredRows(stored), FirstPast(after, |stored|);
      while left != {} && |rows| < count
        invariant from + |rows| <= |all| && |rows| <= count
        invariant IsStoredFrom(left, lap, from + |rows|, |all|)
        invariant rows == all[from..from + |rows|]
        decreases left
      {
        var k := Least(left, lap);
        LeastIsNext(left, lap, from + |rows|, |all|, k);
        SliceOneMore(all, from, from + |rows|);
        rows := rows + [Keyed(k.index, samples[k])];
        left := left - {k};
      }
      if left == {} {
        NothingLeft(left, lap, from + |rows|, |all|);
      }
      FirstRowsAreSlice(stored, after, |rows|, count);
    }
  }

  /** The first `count` of the stored rows past a cursor. */
  function FirstRows(stored: seq<Sample>, after: Option<int>, count: nat): seq<Keyed<Sample>> {
    var all := Matching(StoredRows(stored), AnySample(), after);
    if count < |all| then all[..count] else all
  }

  lemma FirstRowsAreSlice(stored: seq<Sample>, after: Option<int>, m: nat, count: nat)
    requires var from := FirstPast(after, |stored|);
             from + m <= |stored| && m <= count && (m == count || from + m == |stored|)
    ensures var from := FirstPast(after, |stored|);
            StoredRows(stored)[from..from + m] == FirstRows(stored, after, count)
  {
    StoredPastCursor(stored, after);
    SliceIsPage(StoredRows(stored), FirstPast(after, |stored|), m, count);
  }

  lemma SliceIsPage<T>(all: seq<T>, from: nat, m: nat, count: nat)
    requires from + m <= |all| && m <= count && (m == count || from + m == |all|)
    ensures all[from..from + m] == if count < |all[from..]| then all[from..][..count] else all[from..]
  {
  }

  /** The keys still to be read: those of the lap from index `from` up. */
  ghost predicate IsStoredFrom(left: set<SampleKey>, lap: LapId, from: nat, n: nat) {
    forall k :: k in left <==> k.lap == lap && from <= k.index < n
  }

  lemma LeastIsNext(left: set<SampleKey>, lap: LapId, from: nat, n: nat, k: SampleKey)
    requires IsStoredFrom(left, lap, from, n) && k in left && forall other :: other in left ==> k.index <= other.index
    ensures k == SampleKey(lap, from) && from < n && IsStoredFrom(left - {k}, lap, from + 1, n)
  {
    assert SampleKey(lap, from) in left;
  }

  lemma NothingLeft(left: set<SampleKey>, lap: LapId, from: nat, n: nat)
    requires IsStoredFrom(left, lap, from, n) && left == {} && from <= n
    ensures from == n
  {
    assert SampleKey(lap, from) in left <==> from < n;
  }

  lemma SliceOneMore<T>(rows: seq<T>, from: nat, to: nat)
    requires from <= to < |rows|
    ensures rows[from..to + 1] == rows[from..to] + [rows[to]]
  {
  }

  /** The key with the least index. */
  method Least(keys: set<SampleKey>, lap: LapId) returns (least: SampleKey)
    requires keys != {} && forall k :: k in keys ==> k.lap == lap
    ensures least in keys && forall k :: k in keys ==> least.index <= k.index
  {
    least :| least in keys;
    var rest := keys - {least};
    while rest != {}
      invariant least in keys && rest <= keys && forall k :: k in keys && k !in rest ==> least.index <= k.index
      decreases rest
    {
      var k :| k in rest;
      if k.index < least.index {
        least := k;
      }
      rest := rest - {k};
    }
  }

  /** The first of `n` indexes past a cursor. */
  function FirstPast(after: Option<int>, n: nat): (r: nat)
    ensures r <= n && forall i :: 0 <= i < n ==> (Beyond(i, after) <==> r <= i)
  {
    if after.None? || after.value < 0 then 0 else if after.value < n then after.value + 1 else n
  }

  lemma {:induction false} StoredPastCursor(stored: seq<Sample>, after: Option<int>)
    ensures Matching(StoredRows(stored), AnySample(), after) == StoredRows(stored)[FirstPast(after, |stored|)..]
  {
    if stored != [] {
      var n := |stored| - 1;
      StoredPastCursor(stored[..n], after);
      var rows := StoredRows(stored);
      assert rows[..n] == StoredRows(stored[..n]);
      assert rows == rows[..n] + [rows[n]];
      assert Beyond(n, after) <==> FirstPast(after, n + 1) <= n;
      PastCursorOneMore(rows, after);
    }
  }

  lemma PastCursorOneMore(rows: seq<Keyed<Sample>>, after: Option<int>)
    requires rows != [] && rows[|rows| - 1].key == |rows| - 1
    requires Matching(rows[..|rows| - 1], AnySample(), after) == rows[..|rows| - 1][FirstPast(after, |rows| - 1)..]
    ensures Matching(rows, AnySample(), after) == rows[FirstPast(after, |rows|)..]
  {
    var n := |rows| - 1;
    if Beyond(n, after) {
      assert FirstPast(after, n + 1) <= n;
      assert FirstPast(after, n) == FirstPast(after, n + 1);
      assert rows[FirstPast(after, n)..] == rows[..n][FirstPast(after, n)..] + [rows[n]];
    } else {
      assert rows[..n][FirstPast(after, n)..] == [];
    }
  }
}
