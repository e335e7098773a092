/**
 The life of one lap's telemetry request, event by event. Ownership is fenced by an attempt count that a new request
 sets back to zero, so a lost lease stays lost as long as nobody asks for the lap again under the same snapshot.
 */
module TelemetryRow {
  import opened Wrappers
  import opened RuntimePolicy

  datatype Status = Pending | Running | Completed | Failed

  datatype Diagnostic = IdentityUnavailable | LeaseExpired | InvalidSnapshot | UpstreamUnavailable | ProcessingFailed

  datatype Request = Request(
    status: Status,
    attempts: int,
    sampleCount: int,
    requestedAt: int,
    firstStartedAt: Option<int>,
    lastStartedAt: Option<int>,
    heartbeatAt: Option<int>,
    nextRetryAt: Option<int>,
    completedAt: Option<int>,
    snapshot: int,
    error: Option<Diagnostic>)

  /** What a worker holds: the attempt it was given, for the sporting snapshot it was given. */
  datatype Ticket = Ticket(attempt: int, snapshot: int)

  function FreshRequest(now: int, snapshot: int): Request {
    Request(Pending, 0, 0, now, None, None, None, None, None, snapshot, None)
  }

  /** A request that is good, or under way, for the current snapshot is kept; any other is made anew. */
  predicate Kept(r: Request, snapshot: int) {
    && r.snapshot == snapshot
    && ((r.status == Completed && 0 < r.sampleCount) || r.status == Pending || r.status == Running)
  }

  function Ensured(r: Request, now: int, snapshot: int): Request {
    if Kept(r, snapshot) then r else FreshRequest(now, snapshot)
  }

  predicate Claimable(settings: Settings, r: Request, now: int) {
    && r.status == Pending
    && r.attempts < settings.maxAttempts
    && (r.nextRetryAt.Some? ==> r.nextRetryAt.value <= now)
  }

  function Claimed(r: Request, now: int): Request {
    r.(status := Running, attempts := r.attempts + 1, firstStartedAt := r.firstStartedAt.Or(Some(now)),
       lastStartedAt := Some(now), heartbeatAt := Some(now), nextRetryAt := None, completedAt := None, error := None)
  }

  function Unidentified(r: Request): Request {
    r.(status := Failed, nextRetryAt := None, error := Some(IdentityUnavailable))
  }

  predicate Owns(r: Request, ticket: Ticket) {
    r.status == Running && r.attempts == ticket.attempt && r.snapshot == ticket.snapshot
  }

  function Beaten(r: Request, now: int): Request {
    r.(heartbeatAt := Some(now))
  }

  function Stored(r: Request, now: int, count: nat): Request {
    r.(status := Completed, sampleCount := count, heartbeatAt := None, nextRetryAt := None, completedAt := Some(now),
       error := None)
  }

  /** Back to the queue while attempts remain, otherwise failed. */
  function Released(settings: Settings, r: Request, now: int, retryable: bool, jitter: real, error: Diagnostic)
      : Request {
    var retryAt :=
      if !retryable then None
      else
        match CalculateRetrySchedule(now, r.attempts, jitter, settings)
        case Ok(schedule) => Some(schedule.nextRetryAt)
        case Err(_) => None;
    r.(status := if retryAt.Some? then Pending
       else Failed, heartbeatAt := None, nextRetryAt := retryAt, error := Some(error))
  }

  predicate Stale(settings: Settings, r: Request, now: int) {
    r.status == Running && r.heartbeatAt.Some? && r.heartbeatAt.value < now - settings.LeaseTimeout()
  }

  // ---------------------------------------------------------------- the transitions of one row

  datatype Event =
    | Ensure(now: int, snapshot: int)
    | Claim(now: int)
    | Refuse
    | Beat(now: int, ticket: Ticket)
    | Store(now: int, ticket: Ticket, count: nat)
    | Fail(now: int, ticket: Ticket, retryable: bool, jitter: real, error: Diagnostic)
    | Recover(now: int, jitter: real)

  predicate Step(settings: Settings, r: Request, e: Event, t: Request) {
    match e
    case Ensure(now, snapshot) => t == Ensured(r, now, snapshot)
    case Claim(now) => Claimable(settings, r, now) && t == Claimed(r, now)
    case Refuse => r.status == Pending && t == Unidentified(r)
    case Beat(now, ticket) => t == if Owns(r, ticket) then Beaten(r, now) else r
    case Store(now, ticket, count) => 0 < count && t == if Owns(r, ticket) then Stored(r, now, count) else r
    case Fail(now, ticket, retryable, jitter, error) =>
      t == if Owns(r, ticket) then Released(settings, r, now, retryable, jitter, error) else r
    case Recover(now, jitter) => Stale(settings, r, now) && t == Released(settings, r, now, true, jitter, LeaseExpired)
  }

  // ---------------------------------------------------------------- what each event writes

  /** Attempts stay within the limit, and a running request has at least one. */
  predicate Sane(settings: Settings, r: Request) {
    0 <= r.attempts <= settings.maxAttempts && (r.status == Running ==> 1 <= r.attempts)
  }

  /** The request is what this ticket was given for, and is still being worked on. */
  predicate HeldBy(r: Request, ticket: Ticket) {
    r.status == Running && Ticket(r.attempts, r.snapshot) == ticket
  }

  /** A request that no worker holds any more: queued for a retry if it may have one, failed otherwise. */
  ghost predicate LetGo(settings: Settings, r: Request, now: int, mayRetry: bool, jitter: real, error: Diagnostic,
                        t: Request) {
    && t == r.(status := t.status, heartbeatAt := None, nextRetryAt := t.nextRetryAt, error := Some(error))
    && (if mayRetry && r.attempts < settings.maxAttempts then
          0.0 <= jitter <= 1.0 ==>
            && t.status == Pending && t.nextRetryAt.Some?
            && RetryInstant(settings, now, r.attempts, jitter, t.nextRetryAt.value)
        else t.status == Failed && t.nextRetryAt == None)
  }

  /** The columns that one event writes, and under which condition. */
  ghost predicate Writes(settings: Settings, r: Request, e: Event, t: Request) {
    match e
    case Ensure(now, snapshot) =>
      if r.snapshot == snapshot
         && (r.status == Pending || r.status == Running || (r.status == Completed && 0 < r.sampleCount))
      then t == r
      else t == Request(Pending, 0, 0, now, None, None, None, None, None, snapshot, None)
    case Claim(now) =>
      && r.status == Pending && r.attempts < settings.maxAttempts
      && (r.nextRetryAt.None? || r.nextRetryAt.value <= now)
      && t == Request(Running, r.attempts + 1, r.sampleCount, r.requestedAt,
                      if r.firstStartedAt.Some? then r.firstStartedAt else Some(now), Some(now), Some(now), None, None,
                      r.snapshot, None)
    case Refuse => r.status == Pending
      && t == r.(status := Failed, nextRetryAt := None, error := Some(IdentityUnavailable))
    case Beat(now, ticket) => if HeldBy(r, ticket) then t == r.(heartbeatAt := Some(now)) else t == r
    case Store(now, ticket, count) =>
      && 0 < count
      && if HeldBy(r, ticket) then
           t == r.(status := Completed, sampleCount := count, completedAt := Some(now), heartbeatAt := None,
                   nextRetryAt := None, error := None)
         else t == r
    case Fail(now, ticket, retryable, jitter, error) =>
      if HeldBy(r, ticket) then LetGo(settings, r, now, retryable, jitter, error, t) else t == r
    case Recover(now, jitter) =>
      && r.status == Running && r.heartbeatAt.Some? && r.heartbeatAt.value < now - settings.leaseTimeout * SECOND
      && LetGo(settings, r, now, true, jitter, LeaseExpired, t)
  }

  lemma ReleaseLetsGo(settings: Settings, r: Request, now: int, retryable: bool, jitter: real, error: Diagnostic)
    requires settings.Valid() && Sane(settings, r) && r.status == Running
    ensures LetGo(settings, r, now, retryable, jitter, error, Released(settings, r, now, retryable, jitter, error))
  {
    if retryable && r.attempts < settings.maxAttempts && 0.0 <= jitter <= 1.0 {
      ScheduleIsRetryInstant(settings, now, r.attempts, jitter);
    }
  }

  /** Every event writes the columns it is meant to write, and keeps the request sane. */
  lemma EveryEventWrites(settings: Settings, r: Request, e: Event, t: Request)
    requires settings.Valid() && Sane(settings, r) && Step(settings, r, e, t)
    ensures Writes(settings, r, e, t) && Sane(settings, t)
  {
    match e
    case Fail(now, ticket, retryable, jitter, error) =>
      if Owns(r, ticket) {
        ReleaseLetsGo(settings, r, now, retryable, jitter, error);
      }
    case Recover(now, jitter) => ReleaseLetsGo(settings, r, now, true, jitter, LeaseExpired);
    case _ =>
  }

  ghost predicate Run(settings: Settings, rows: seq<Request>, events: seq<Event>) {
    && |rows| == |events| + 1
    && forall i {:trigger events[i]} :: 0 <= i < |events| ==> Step(settings, rows[i], events[i], rows[i + 1])
  }

  /** The request was thrown away and made anew, for the snapshot of `ticket`. */
  predicate ResetsFor(r: Request, e: Event, ticket: Ticket) {
    e.Ensure? && !Kept(r, e.snapshot) && e.snapshot == ticket.snapshot
  }

  /** A ticket that a row has moved past: other snapshot, later attempt, or the same attempt no longer running. */
  predicate Retired(r: Request, ticket: Ticket) {
    || r.snapshot != ticket.snapshot
    || ticket.attempt < r.attempts
    || (ticket.attempt == r.attempts && r.status != Running)
  }

  lemma StepKeepsRetired(settings: Settings, r: Request, e: Event, t: Request, ticket: Ticket)
    requires Step(settings, r, e, t) && Retired(r, ticket) && !ResetsFor(r, e, ticket)
    ensures Retired(t, ticket) && !Owns(t, ticket)
  {
  }

  lemma {:induction false} RetiredStays(settings: Settings, rows: seq<Request>, events: seq<Event>, ticket: Ticket,
                                        i: nat, j: nat)
    requires Run(settings, rows, events) && i <= j < |rows| && Retired(rows[i], ticket)
    requires forall k :: i <= k < j ==> !ResetsFor(rows[k], events[k], ticket)
    ensures Retired(rows[j], ticket) && !Owns(rows[j], ticket)
    decreases j
  {
    if i < j {
      RetiredStays(settings, rows, events, ticket, i, j - 1);
      StepKeepsRetired(settings, rows[j - 1], events[j - 1], rows[j], ticket);
    }
  }

  lemma OwnershipEndsRetired(settings: Settings, r: Request, e: Event, t: Request, ticket: Ticket)
    requires Step(settings, r, e, t) && Owns(r, ticket) && !Owns(t, ticket)
    ensures Retired(t, ticket)
  {
  }

  /**
   A claim whose ownership has ended never owns again, across new requests for any other snapshot, as long as no new
   request is made for its own. `ResetRevivesTicket` is the other half.
   */
  lemma EndedTicketStaysDead(settings: Settings, rows: seq<Request>, events: seq<Event>, ticket: Ticket, i: nat, j: nat)
    requires Run(settings, rows, events) && i < j < |rows| && Owns(rows[i], ticket) && !Owns(rows[i + 1], ticket)
    requires forall k :: i < k < j ==> !ResetsFor(rows[k], events[k], ticket)
    ensures !Owns(rows[j], ticket)
  {
    assert Step(settings, rows[i], events[i], rows[i + 1]);
    OwnershipEndsRetired(settings, rows[i], events[i], rows[i + 1], ticket);
    RetiredStays(settings, rows, events, ticket, i + 1, j);
  }

  function TicketOf(r: Request): Ticket {
    Ticket(r.attempts, r.snapshot)
  }

  /**
   A row that cannot hand out `ticket` any more: it is for another snapshot, or its attempt is at least the ticket's.
   */
  predicate Spent(r: Request, ticket: Ticket) {
    r.snapshot != ticket.snapshot || ticket.attempt <= r.attempts
  }

  lemma {:induction false} TicketIsSpent(settings: Settings, rows: seq<Request>, events: seq<Event>, ticket: Ticket,
                                         i: nat, j: nat)
    requires Run(settings, rows, events) && i <= j < |rows| && Spent(rows[i], ticket)
    requires forall k :: i <= k < j ==> !ResetsFor(rows[k], events[k], ticket)
    ensures Spent(rows[j], ticket)
    decreases j
  {
    if i < j {
      TicketIsSpent(settings, rows, events, ticket, i, j - 1);
    }
  }

  /**
   Two claims of one lap get different tickets unless a new request for the first one's snapshot came between them.
   */
  lemma TicketsDiffer(settings: Settings, rows: seq<Request>, events: seq<Event>, i: nat, j: nat)
    requires Run(settings, rows, events) && i < j < |events| && events[i].Claim? && events[j].Claim?
    requires forall k :: i < k < j ==> !ResetsFor(rows[k], events[k], TicketOf(rows[i + 1]))
    ensures TicketOf(rows[i + 1]) != TicketOf(rows[j + 1])
  {
    assert Step(settings, rows[j], events[j], rows[j + 1]);
    TicketIsSpent(settings, rows, events, TicketOf(rows[i + 1]), i + 1, j);
  }

  /** From a failed request, asking for the lap again hands out the first ticket once more. */
  lemma FirstTicketAgain(settings: Settings, failed: Request, now: int)
    requires settings.Valid() && failed.status == Failed
    ensures var again := Ensured(failed, now, failed.snapshot);
            && Claimable(settings, again, now)
            && Owns(Claimed(again, now), Ticket(1, failed.snapshot))
  {
  }

  /**
   The other half, under any settings: a lease expires, the request fails for good, the lap is requested
   again for the same snapshot, and the next worker is handed the very ticket that the first worker still holds.
   */
  lemma ResetRevivesTicket(settings: Settings, snapshot: int) returns (rows: seq<Request>, events: seq<Event>)
    requires settings.Valid()
    ensures Run(settings, rows, events) && 3 < |events|
    ensures events[1].Recover? && Owns(rows[1], Ticket(1, snapshot)) && !Owns(rows[2], Ticket(1, snapshot))
    ensures Owns(rows[|events|], Ticket(1, snapshot))
  {
    var late := settings.LeaseTimeout() + 1;
    var first := FreshRequest(0, snapshot);
    var running := Claimed(first, 0);
    var expired := Released(settings, running, late, true, 0.0, LeaseExpired);
    if expired.status == Failed {
      var again := Ensured(expired, late, snapshot);
      FirstTicketAgain(settings, expired, late);
      rows := [first, running, expired, again, Claimed(again, late)];
      events := [Claim(0), Recover(late, 0.0), Ensure(late, snapshot), Claim(late)];
    } else {
      var later := expired.nextRetryAt.value;
      var second := Claimed(expired, later);
      var failed := Released(settings, second, later, false, 0.0, ProcessingFailed);
      var again := Ensured(failed, later, snapshot);
      FirstTicketAgain(settings, failed, later);
      rows := [first, running, expired, second, failed, again, Claimed(again, later)];
      events := [Claim(0), Recover(late, 0.0), Claim(later),
                 Fail(later, Ticket(2, snapshot), false, 0.0, ProcessingFailed),
                 Ensure(later, snapshot), Claim(later)];
    }
  }

  /** A retryable failure below the limit queues the request again. */
  lemma RetryKeepsPending(settings: Settings, r: Request, now: int)
    requires settings.Valid() && 1 <= r.attempts < settings.maxAttempts
    ensures var t := Released(settings, r, now, true, 0.0, UpstreamUnavailable);
            && t.status == Pending && t.attempts == r.attempts && t.snapshot == r.snapshot
            && t.nextRetryAt.Some? && Claimable(settings, t, t.nextRetryAt.value)
  {
    RetryDelayBounds(now, r.attempts, 0.0, settings);
  }

  lemma RunOneMore(settings: Settings, rows: seq<Request>, events: seq<Event>, e: Event, t: Request)
    requires Run(settings, rows, events) && Step(settings, rows[|events|], e, t)
    ensures Run(settings, rows + [t], events + [e])
  {
  }

  predicate NoNewRequest(events: seq<Event>) {
    forall k :: 0 <= k < |events| ==> !events[k].Ensure?
  }

  /** From a fresh request, failing and retrying reaches the claim of every attempt up to the limit. */
  lemma {:induction false} EveryAttemptComesUp(settings: Settings, r: Request, now: int, attempt: nat)
      returns (rows: seq<Request>, events: seq<Event>)
    requires settings.Valid() && 1 <= attempt <= settings.maxAttempts && r == FreshRequest(now, r.snapshot)
    ensures Run(settings, rows, events) && rows[0] == r
    ensures Owns(rows[|events|], Ticket(attempt, r.snapshot))
    ensures NoNewRequest(events)
  {
    if attempt == 1 {
      rows, events := [r, Claimed(r, now)], [Claim(now)];
    } else {
      rows, events := EveryAttemptComesUp(settings, r, now, attempt - 1);
      var running := rows[|events|];
      RetryKeepsPending(settings, running, now);
      var pending := Released(settings, running, now, true, 0.0, UpstreamUnavailable);
      var fail := Fail(now, TicketOf(running), true, 0.0, UpstreamUnavailable);
      RunOneMore(settings, rows, events, fail, pending);
      rows, events := rows + [pending], events + [fail];
      var later := pending.nextRetryAt.value;
      RunOneMore(settings, rows, events, Claim(later), Claimed(pending, later));
      rows, events := rows + [Claimed(pending, later)], events + [Claim(later)];
    }
  }

  /** Some run without another request ends with the ticket owning the lap. */
  ghost predicate CanOwnAgain(settings: Settings, r: Request, ticket: Ticket) {
    exists rows, events :: RunFrom(settings, r, rows, events) && NoNewRequest(events) && Owns(rows[|events|], ticket)
  }

  ghost predicate RunFrom(settings: Settings, r: Request, rows: seq<Request>, events: seq<Event>) {
    Run(settings, rows, events) && rows[0] == r
  }

  /**
   Main result: asking for the lap revives an ended ticket exactly when it makes a new request for the ticket's
   snapshot.
   */
  lemma RevivedExactlyByReset(settings: Settings, r: Request, now: int, snapshot: int, ticket: Ticket)
    requires settings.Valid() && Retired(r, ticket) && 1 <= ticket.attempt <= settings.maxAttempts
    ensures CanOwnAgain(settings, Ensured(r, now, snapshot), ticket) <==> ResetsFor(r, Ensure(now, snapshot), ticket)
  {
    var e, t := Ensure(now, snapshot), Ensured(r, now, snapshot);
    if ResetsFor(r, e, ticket) {
      var rows, events := EveryAttemptComesUp(settings, t, now, ticket.attempt);
      assert RunFrom(settings, t, rows, events);
    } else {
      StepKeepsRetired(settings, r, e, t, ticket);
      forall rows, events | RunFrom(settings, t, rows, events) && NoNewRequest(events)
        ensures !Owns(rows[|events|], ticket)
      {
        RetiredStays(settings, rows, events, ticket, 0, |events|);
      }
    }
  }

  /** A completed request always has samples, and only storing them completes it. */
  lemma OnlyStoringCompletes(settings: Settings, r: Request, e: Event, t: Request)
    requires Step(settings, r, e, t) && t.status == Completed && r.status != Completed
    ensures e.Store? && Owns(r, e.ticket) && t.sampleCount == e.count && t.snapshot == e.ticket.snapshot
  {
  }
}
