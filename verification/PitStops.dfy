/** Timing the pit lane: which visits become recorded stops, over any sequence of frames. */
module PitStops {
  import opened Wrappers
  import opened LiveJson
  import opened SessionIdentity

  const IMPLAUSIBLE_VISIT := 2 * 60 * 1_000_000

  /**
   A report of a car's pit flag, with the session status it came under; or just a status the session had meanwhile.
   */
  datatype Report =
    | Report(car: string, inPit: bool, at: int, status: string, initial: bool, lap: Option<int>)
    | Seen(status: string)
  {
    predicate Of(name: string) { Report? && car == name }
  }

  datatype Visit = Visit(startedAt: int, status: string, lap: Option<int>, observedEntry: bool)

  datatype PitStop = PitStop(car: string, elapsed: int, lap: Option<int>, enteredAt: int)

  // ---------------------------------------------------------------- what a history of reports means

  /** The car's latest report among the first `n`. */
  function LatestReport(history: seq<Report>, n: nat, car: string): (r: Option<nat>)
    requires n <= |history|
    ensures r.Some? ==> r.value < n && history[r.value].Of(car)
    ensures forall k :: 0 <= k < n && history[k].Of(car) ==> r.Some? && k <= r.value
  {
    if n == 0 then None else if history[n - 1].Of(car) then Some(n - 1) else LatestReport(history, n - 1, car)
  }

  /** The report before the last one of the car that the last one is about. */
  function PreviousOfLast(history: seq<Report>): (r: Option<nat>)
    requires history != []
    ensures r.Some? ==> r.value < |history| - 1 && history[|history| - 1].Report?
    ensures r.Some? ==> history[r.value].Of(history[|history| - 1].car)
  {
    var n := |history| - 1;
    if history[n].Report? then LatestReport(history, n, history[n].car) else None
  }

  /** Reports `i` and `j` are the two ends of one visit whose entry was observed and whose length is plausible. */
  predicate IsVisit(limit: int, history: seq<Report>, i: nat, j: nat) {
    && i < j < |history|
    && history[j].Report? && history[i].Of(history[j].car)
    && (forall k :: i < k < j ==> !history[k].Of(history[j].car))
    && history[i].inPit && !history[j].inPit
    && !history[i].initial
    && 0 < history[j].at - history[i].at < limit
  }

  /** Such a visit is recorded as a stop if the status at its exit is unknown or equals the one at its entry. */
  predicate IsStop(limit: int, history: seq<Report>, i: nat, j: nat) {
    IsVisit(limit, history, i, j) && (history[j].status != "" ==> history[i].status == history[j].status)
  }

  function StopFrom(history: seq<Report>, i: nat, j: nat): PitStop
    requires i < |history| && j < |history| && history[i].Report? && history[j].Report?
  {
    PitStop(history[j].car, history[j].at - history[i].at, history[i].lap, history[i].at)
  }

  /** The stops of a history, in the order in which the cars left the lane. */
  function StopsOf(limit: int, history: seq<Report>): seq<PitStop> {
    if history == [] then []
    else
      var n := |history| - 1;
      var earlier := StopsOf(limit, history[..n]);
      var entry := PreviousOfLast(history);
      if entry.Some? && IsStop(limit, history, entry.value, n) then earlier + [StopFrom(history, entry.value, n)]
        else earlier
  }

  /** The two ends of the `s`-th recorded stop. */
  lemma {:induction false} StopHasEnds(limit: int, history: seq<Report>, s: nat) returns (i: nat, j: nat)
    requires s < |StopsOf(limit, history)|
    ensures IsStop(limit, history, i, j) && StopsOf(limit, history)[s] == StopFrom(history, i, j)
    ensures |StopsOf(limit, history[..j])| == s
    ensures var stop := StopsOf(limit, history)[s];
            && history[i].car == stop.car == history[j].car && stop.lap == history[i].lap
            && stop.enteredAt == history[i].at && stop.enteredAt + stop.elapsed == history[j].at
  {
    var n := |history| - 1;
    if s < |StopsOf(limit, history[..n])| {
      i, j := StopHasEnds(limit, history[..n], s);
      assert history[..n][..j] == history[..j];
    } else {
      i, j := PreviousOfLast(history).value, n;
    }
  }

  /** Every pair of reports that bounds a stop is recorded. */
  lemma {:induction false} EveryStopIsRecorded(limit: int, history: seq<Report>, i: nat, j: nat)
    requires IsStop(limit, history, i, j)
    ensures StopFrom(history, i, j) in StopsOf(limit, history)
  {
    var n := |history| - 1;
    if j < n {
      EveryStopIsRecorded(limit, history[..n], i, j);
      assert StopFrom(history[..n], i, j) == StopFrom(history, i, j);
    } else {
      assert PreviousOfLast(history) == Some(i);
    }
  }

  // ---------------------------------------------------------------- stops and changes of the session status

  /** A known status other than the one at entry `i` was reported before `j`. */
  predicate SawOtherStatus(history: seq<Report>, i: nat, j: nat)
    requires i < |history| && j < |history|
  {
    exists k :: i < k < j && history[k].status != "" && history[k].status != history[i].status
  }

  /** What a racing stop should be: a visit that does not outlive the session status it began in. */
  predicate IsRacingStop(limit: int, history: seq<Report>, i: nat, j: nat) {
    IsStop(limit, history, i, j) && !SawOtherStatus(history, i, j)
  }

  function RacingStopsOf(limit: int, history: seq<Report>): seq<PitStop> {
    if history == [] then []
    else
      var n := |history| - 1;
      var earlier := RacingStopsOf(limit, history[..n]);
      var entry := PreviousOfLast(history);
      if entry.Some? && IsRacingStop(limit, history, entry.value, n) then earlier + [StopFrom(history, entry.value, n)]
      else earlier
  }

  /** A visit during which the status went elsewhere and came back, or was lost, before the exit. */
  predicate ThereAndBack(limit: int, history: seq<Report>, i: nat, j: nat) {
    && IsVisit(limit, history, i, j)
    && SawOtherStatus(history, i, j)
    && (history[j].status == "" || history[j].status == history[i].status)
  }

  /** No visit sees the status go elsewhere and come back. */
  ghost predicate StatusNeverReturns(limit: int, history: seq<Report>) {
    forall i: nat, j: nat :: !ThereAndBack(limit, history, i, j)
  }

  lemma EntryIsLatest(limit: int, history: seq<Report>, i: nat)
    requires history != [] && IsVisit(limit, history, i, |history| - 1)
    ensures PreviousOfLast(history) == Some(i)
  {
  }

  lemma ThereAndBackOfPrefix(limit: int, history: seq<Report>, n: nat, i: nat, j: nat)
    requires n <= |history| && j < n
    ensures ThereAndBack(limit, history[..n], i, j) <==> ThereAndBack(limit, history, i, j)
  {
    var prefix := history[..n];
    if i < j {
      assert forall k :: i <= k <= j ==> prefix[k] == history[k];
    }
  }

  lemma ReturnsInPrefix(limit: int, history: seq<Report>, n: nat)
    requires n <= |history| && StatusNeverReturns(limit, history)
    ensures StatusNeverReturns(limit, history[..n])
  {
    forall i: nat, j: nat ensures !ThereAndBack(limit, history[..n], i, j) {
      if j < n {
        ThereAndBackOfPrefix(limit, history, n, i, j);
      }
    }
  }

  lemma LastVisitReturns(limit: int, history: seq<Report>, i: nat)
    requires history != [] && ThereAndBack(limit, history, i, |history| - 1)
    ensures PreviousOfLast(history) == Some(i)
  {
    EntryIsLatest(limit, history, i);
  }

  lemma EarlierVisitReturns(limit: int, history: seq<Report>, i: nat, j: nat)
    requires history != [] && StatusNeverReturns(limit, history[..|history| - 1]) && j < |history| - 1
    ensures !ThereAndBack(limit, history, i, j)
  {
    ThereAndBackOfPrefix(limit, history, |history| - 1, i, j);
  }

  /** One more report adds at most one visit: the one it ends. */
  lemma ReturnsOneMore(limit: int, history: seq<Report>)
    requires history != [] && !StatusNeverReturns(limit, history) && StatusNeverReturns(limit, history[..|history| - 1])
    ensures var n := |history| - 1;
            var entry := PreviousOfLast(history);
            entry.Some? && ThereAndBack(limit, history, entry.value, n)
  {
    var i: nat, j: nat :| ThereAndBack(limit, history, i, j);
    if j < |history| - 1 {
      EarlierVisitReturns(limit, history, i, j);
    } else {
      LastVisitReturns(limit, history, i);
    }
  }

  lemma {:induction false} RacingStopsAreStops(limit: int, history: seq<Report>)
    ensures |RacingStopsOf(limit, history)| <= |StopsOf(limit, history)|
    ensures |RacingStopsOf(limit, history)| == |StopsOf(limit, history)| <==> StatusNeverReturns(limit, history)
    ensures StatusNeverReturns(limit, history) ==> RacingStopsOf(limit, history) == StopsOf(limit, history)
  {
    if history != [] {
      var n := |history| - 1;
      RacingStopsAreStops(limit, history[..n]);
      var entry := PreviousOfLast(history);
      if StatusNeverReturns(limit, history) {
        ReturnsInPrefix(limit, history, n);
        assert entry.Some? ==> !ThereAndBack(limit, history, entry.value, n);
      } else if StatusNeverReturns(limit, history[..n]) {
        ReturnsOneMore(limit, history);
      }
    }
  }

  /**
   For one history: the recorded stops are the racing stops exactly when no visit sees the status go and come back.
   */
  lemma OnlyRacingStopsExactlyWhen(limit: int, history: seq<Report>)
    ensures StopsOf(limit, history) == RacingStopsOf(limit, history) <==> StatusNeverReturns(limit, history)
  {
    RacingStopsAreStops(limit, history);
  }

  /** The status at `i` gave way to another known one at `k`, and by `j` it is back, or no longer known. */
  predicate ComesBack(statuses: seq<string>, i: nat, k: nat, j: nat) {
    && i < k < j < |statuses|
    && statuses[k] != "" && statuses[k] != statuses[i]
    && (statuses[j] == "" || statuses[j] == statuses[i])
  }

  /** The session never goes back to a status it has left, and never loses one after a change. */
  ghost predicate MovesOn(statuses: seq<string>) {
    forall i: nat, k: nat, j: nat :: !ComesBack(statuses, i, k, j)
  }

  /** The reports come under these statuses, one by one. */
  predicate Under(history: seq<Report>, statuses: seq<string>) {
    |history| == |statuses| && forall k :: 0 <= k < |history| ==> history[k].status == statuses[k]
  }

  function StatusesOf(history: seq<Report>): (statuses: seq<string>)
    ensures Under(history, statuses)
  {
    seq(|history|, k requires 0 <= k < |history| => history[k].status)
  }

  /** Under these statuses, whatever the cars do, only racing stops are recorded. */
  ghost predicate RecordsOnlyRacing(limit: int, statuses: seq<string>) {
    forall history :: Under(history, statuses) ==> StopsOf(limit, history) == RacingStopsOf(limit, history)
  }

  /** One car enters at `i` and leaves at `j`; nothing else is reported. */
  function OneVisit(statuses: seq<string>, i: nat, j: nat): (history: seq<Report>)
    requires i < j < |statuses|
    ensures Under(history, statuses)
  {
    seq(|statuses|, k requires 0 <= k < |statuses| =>
      if k == i then Report("44", true, 0, statuses[k], false, None)
      else if k == j then Report("44", false, 1, statuses[k], false, None)
      else Seen(statuses[k]))
  }

  lemma OneVisitComesBack(limit: int, statuses: seq<string>, i: nat, k: nat, j: nat)
    requires 1 < limit && ComesBack(statuses, i, k, j)
    ensures ThereAndBack(limit, OneVisit(statuses, i, j), i, j)
  {
    assert OneVisit(statuses, i, j)[k].status == statuses[k];
  }

  lemma MovingOnIsEnough(limit: int, history: seq<Report>, statuses: seq<string>)
    requires Under(history, statuses) && MovesOn(statuses)
    ensures StopsOf(limit, history) == RacingStopsOf(limit, history)
  {
    forall i: nat, j: nat ensures !ThereAndBack(limit, history, i, j) {
      if ThereAndBack(limit, history, i, j) {
        var k :| i < k < j && history[k].status != "" && history[k].status != history[i].status;
        assert ComesBack(statuses, i, k, j);
      }
    }
    RacingStopsAreStops(limit, history);
  }

  /**
   Main result: whatever the cars report, only racing stops are recorded if and only if the session's statuses never
   come back to one that was left, and none is lost after a change, or no visit can be within the limit at all. The
   tracker compares the two ends of a visit only.
   */
  lemma StopsAreRacingExactlyWhen(limit: int, statuses: seq<string>)
    ensures RecordsOnlyRacing(limit, statuses) <==> MovesOn(statuses) || limit <= 1
  {
    if limit <= 1 {
      forall history ensures StopsOf(limit, history) == RacingStopsOf(limit, history) {
        OnlyRacingStopsExactlyWhen(limit, history);
      }
    } else if MovesOn(statuses) {
      forall history | Under(history, statuses) ensures StopsOf(limit, history) == RacingStopsOf(limit, history) {
        MovingOnIsEnough(limit, history, statuses);
      }
    } else {
      var i: nat, k: nat, j: nat :| ComesBack(statuses, i, k, j);
      OneVisitComesBack(limit, statuses, i, k, j);
      OnlyRacingStopsExactlyWhen(limit, OneVisit(statuses, i, j));
    }
  }

  /** A concrete failure: the session is aborted and restarted while car 44 is in the lane, and its wait is recorded. */
  lemma WaitThroughRestartIsRecorded()
    ensures var history := [Report("44", true, 0, "Started", false, None), Seen("Aborted"),
                            Report("44", false, 9, "Started", false, None)];
            && StopsOf(IMPLAUSIBLE_VISIT, history) == [PitStop("44", 9, None, 0)]
            && RacingStopsOf(IMPLAUSIBLE_VISIT, history) == []
  {
    var history := [Report("44", true, 0, "Started", false, None), Seen("Aborted"),
                    Report("44", false, 9, "Started", false, None)];
    var none: seq<Report> := [];
    assert [history[0]][..0] == none;
    assert history[..2] == [history[0], history[1]] && history[..2][..1] == [history[0]]
      && history[..2][..1][..0] == none;
    assert RacingStopsOf(IMPLAUSIBLE_VISIT, none) == [];
    assert StopsOf(IMPLAUSIBLE_VISIT, [history[0]]) == [];
    assert RacingStopsOf(IMPLAUSIBLE_VISIT, [history[0]]) == [];
    assert StopsOf(IMPLAUSIBLE_VISIT, history[..2]) == [];
    assert RacingStopsOf(IMPLAUSIBLE_VISIT, history[..2]) == [];
    assert IsVisit(IMPLAUSIBLE_VISIT, history, 0, 2);
    EntryIsLatest(IMPLAUSIBLE_VISIT, history, 0);
    assert history[1].status != history[0].status;
    assert SawOtherStatus(history, 0, 2);
  }

  // ---------------------------------------------------------------- one car's stops

  predicate TimesNeverGoBack(history: seq<Report>) {
    forall i, j :: 0 <= i < j < |history| && history[i].Report? && history[j].Report? ==> history[i].at <= history[j].at
  }

  lemma {:induction false} LaterStopsAreLonger(limit: int, history: seq<Report>, m: nat, n: nat)
    requires m <= n <= |history|
    ensures |StopsOf(limit, history[..m])| <= |StopsOf(limit, history[..n])|
    decreases n
  {
    if m < n {
      LaterStopsAreLonger(limit, history, m, n - 1);
      assert history[..n][..n - 1] == history[..n - 1];
    }
  }

  /** With a clock that never goes back, the stops of one car are disjoint and recorded in order. */
  lemma StopsOfOneCarAreDisjoint(limit: int, history: seq<Report>, s: nat, t: nat)
    requires TimesNeverGoBack(history) && s < t < |StopsOf(limit, history)|
    requires StopsOf(limit, history)[s].car == StopsOf(limit, history)[t].car
    ensures var a, b := StopsOf(limit, history)[s], StopsOf(limit, history)[t];
            a.enteredAt < a.enteredAt + a.elapsed <= b.enteredAt < b.enteredAt + b.elapsed
  {
    var i1, j1 := StopHasEnds(limit, history, s);
    var i2, j2 := StopHasEnds(limit, history, t);
    if j2 <= j1 {
      LaterStopsAreLonger(limit, history, j2, j1);
    }
    assert j1 < i2;
  }

  /** What the tracker remembers: the cars whose latest report put them in the lane, and that report. */
  ghost predicate IsOpen(history: seq<Report>, open: map<string, Visit>) {
    forall car :: var latest := LatestReport(history, |history|, car);
      && (car in open <==> latest.Some? && history[latest.value].inPit)
      && (car in open ==> open[car] == VisitOf(history[latest.value]))
  }

  function VisitOf(report: Report): Visit
    requires report.Report?
  {
    Visit(report.at, report.status, report.lap, !report.initial)
  }

  lemma {:induction false} LatestOfPrefix(history: seq<Report>, report: Report, n: nat, car: string)
    requires n <= |history|
    ensures LatestReport(history + [report], n, car) == LatestReport(history, n, car)
  {
    if n != 0 {
      LatestOfPrefix(history, report, n - 1, car);
    }
  }

  // ---------------------------------------------------------------- the listing

  /** Quickest first, by rounded seconds, then earliest. */
  predicate ListedBefore(round: int -> int, a: PitStop, b: PitStop) {
    round(a.elapsed) < round(b.elapsed) || (round(a.elapsed) == round(b.elapsed) && a.enteredAt < b.enteredAt)
  }

  function InsertStop(round: int -> int, listing: seq<PitStop>, stop: PitStop): seq<PitStop> {
    if listing == [] || !ListedBefore(round, stop, listing[|listing| - 1]) then listing + [stop]
    else InsertStop(round, listing[..|listing| - 1], stop) + [listing[|listing| - 1]]
  }

  function Listing(round: int -> int, stops: seq<PitStop>): seq<PitStop> {
    if stops == [] then [] else InsertStop(round, Listing(round, stops[..|stops| - 1]), stops[|stops| - 1])
  }

  predicate InListingOrder(round: int -> int, listing: seq<PitStop>) {
    forall i, j :: 0 <= i < j < |listing| ==> !ListedBefore(round, listing[j], listing[i])
  }

  /** The stops that are listed neither before nor after `like`, in order. */
  function TiedWith(round: int -> int, stops: seq<PitStop>, like: PitStop): seq<PitStop> {
    if stops == [] then []
    else
      var last := stops[|stops| - 1];
      TiedWith(round, stops[..|stops| - 1], like)
      + if !ListedBefore(round, last, like) && !ListedBefore(round, like, last) then [last] else []
  }

  lemma TiedOneMore(round: int -> int, stops: seq<PitStop>, stop: PitStop, like: PitStop)
    ensures TiedWith(round, stops + [stop], like)
            == TiedWith(round, stops, like) + if !ListedBefore(round, stop, like) && !ListedBefore(round, like, stop)
              then [stop] else []
  {
    assert (stops + [stop])[..|stops|] == stops;
  }

  lemma {:induction false} InsertKeepsOrder(round: int -> int, listing: seq<PitStop>, stop: PitStop)
    requires InListingOrder(round, listing)
    ensures InListingOrder(round, InsertStop(round, listing, stop))
    ensures forall s :: s in InsertStop(round, listing, stop) <==> s in listing || s == stop
  {
    if listing != [] && ListedBefore(round, stop, listing[|listing| - 1]) {
      var n := |listing| - 1;
      assert listing == listing[..n] + [listing[n]];
      InsertKeepsOrder(round, listing[..n], stop);
      var inserted := InsertStop(round, listing[..n], stop);
      forall i | 0 <= i < |inserted| ensures !ListedBefore(round, listing[n], inserted[i]) {
        assert inserted[i] in inserted;
      }
    }
  }

  lemma {:induction false} InsertKeepsTies(round: int -> int, listing: seq<PitStop>, stop: PitStop, like: PitStop)
    ensures TiedWith(round, InsertStop(round, listing, stop), like) == TiedWith(round, listing + [stop], like)
  {
    if listing != [] && ListedBefore(round, stop, listing[|listing| - 1]) {
      var n := |listing| - 1;
      var shorter, last := listing[..n], listing[n];
      assert listing == shorter + [last];
      InsertKeepsTies(round, shorter, stop, like);
      TiedOneMore(round, InsertStop(round, shorter, stop), last, like);
      TiedOneMore(round, shorter, stop, like);
      TiedOneMore(round, shorter, last, like);
      TiedOneMore(round, listing, stop, like);
    }
  }

  /** The listing is in order, and stops that tie keep the order in which they were recorded; so it leaves none out. */
  lemma {:induction false} ListingIsStableSort(round: int -> int, stops: seq<PitStop>)
    ensures InListingOrder(round, Listing(round, stops))
    ensures forall like :: TiedWith(round, Listing(round, stops), like) == TiedWith(round, stops, like)
    ensures forall s :: s in Listing(round, stops) <==> s in stops
  {
    if stops != [] {
      var n := |stops| - 1;
      assert stops == stops[..n] + [stops[n]];
      ListingIsStableSort(round, stops[..n]);
      InsertKeepsOrder(round, Listing(round, stops[..n]), stops[n]);
      forall like ensures TiedWith(round, Listing(round, stops), like) == TiedWith(round, stops, like) {
        InsertKeepsTies(round, Listing(round, stops[..n]), stops[n], like);
        TiedOneMore(round, Listing(round, stops[..n]), stops[n], like);
        TiedOneMore(round, stops[..n], stops[n], like);
      }
    }
  }

  // ---------------------------------------------------------------- the tracker

  /** The report one line of a payload carries, if its pit flag is set either way. */
  function LineReport(line: Field, at: int, status: string, initial: bool, laps: map<string, int>): seq<Report> {
    match PitFlag(line.value)
    case None => []
    case Some(inPit) =>
      [Report(line.key, inPit, at, status, initial, if line.key in laps then Some(laps[line.key]) else None)]
  }

  function ReportsIn(lines: seq<Field>, at: int, status: string, initial: bool, laps: map<string, int>): seq<Report> {
    if lines == [] then []
    else
      ReportsIn(lines[..|lines| - 1], at, status, initial, laps)
      + LineReport(lines[|lines| - 1], at, status, initial, laps)
  }

  /** Only a genuine boolean counts; anything else under `InPit` is ignored. */
  function PitFlag(line: Json): Option<bool> {
    if !line.Obj? then None
    else
      match Get(line.fields, "InPit")
      case Some(Bool(b)) => Some(b)
      case _ => None
  }

  function LinesOf(payload: Json): seq<Field> {
    if !payload.Obj? then []
    else
      match Get(payload.fields, "Lines")
      case Some(Obj(lines)) => lines
      case _ => []
  }

  /** The line says whether its car is in the lane, and the report says the same under the frame's circumstances. */
  ghost predicate Told(line: Field, at: int, status: string, initial: bool, laps: map<string, int>, r: Report) {
    && r.Report? && r.car == line.key && line.value.Obj? && Has(line.value.fields, "InPit", Bool(r.inPit))
    && r.at == at && r.status == status && r.initial == initial
    && (r.lap.Some? <==> r.car in laps) && (r.lap.Some? ==> laps[r.car] == r.lap.value)
  }

  lemma LineIsTold(line: Field, at: int, status: string, initial: bool, laps: map<string, int>)
    requires WellFormed(line.value)
    ensures forall r :: r in LineReport(line, at, status, initial, laps) <==> Told(line, at, status, initial, laps, r)
  {
    if line.value.Obj? {
      GetFinds(line.value.fields, "InPit", Bool(true));
      GetFinds(line.value.fields, "InPit", Bool(false));
    }
    forall r | Told(line, at, status, initial, laps, r) ensures r in LineReport(line, at, status, initial, laps) {
      assert PitFlag(line.value) == Some(r.inPit);
    }
  }

  lemma {:induction false} LinesAreTold(lines: seq<Field>, at: int, status: string, initial: bool,
                                        laps: map<string, int>, r: Report)
    requires forall i :: 0 <= i < |lines| ==> WellFormed(lines[i].value)
    ensures r in ReportsIn(lines, at, status, initial, laps) <==>
              exists i :: 0 <= i < |lines| && Told(lines[i], at, status, initial, laps, r)
  {
    if lines != [] {
      var n := |lines| - 1;
      LinesAreTold(lines[..n], at, status, initial, laps, r);
      LineIsTold(lines[n], at, status, initial, laps);
      if i :| 0 <= i < n && Told(lines[..n][i], at, status, initial, laps, r) {
        assert lines[..n][i] == lines[i];
      }
      if i :| 0 <= i < |lines| && Told(lines[i], at, status, initial, laps, r) {
        assert i < n ==> lines[..n][i] == lines[i];
      }
    }
  }

  /** A timing payload reports exactly the cars of its lines whose pit flag is a boolean. */
  lemma FlagsAreReported(payload: Json, at: int, status: string, initial: bool, laps: map<string, int>, r: Report)
    requires WellFormed(payload)
    ensures r in ReportsIn(LinesOf(payload), at, status, initial, laps) <==>
              && payload.Obj?
              && exists lines, i :: Has(payload.fields, "Lines", Obj(lines)) && 0 <= i < |lines|
                                    && Told(lines[i], at, status, initial, laps, r)
  {
    var found := LinesOf(payload);
    if payload.Obj? {
      forall lines | Has(payload.fields, "Lines", Obj(lines)) ensures lines == found {
        GetFinds(payload.fields, "Lines", Obj(lines));
      }
      if found != [] {
        GetFinds(payload.fields, "Lines", Obj(found));
        var k :| 0 <= k < |payload.fields| && payload.fields[k] == Field("Lines", Obj(found));
        assert WellFormed(payload.fields[k].value);
      }
    }
    LinesAreTold(found, at, status, initial, laps, r);
  }

  class PitStopTracker {
    const limit: int
    var open: map<string, Visit>
    var recorded: seq<PitStop>
    /** Every report observed so far. */
    ghost var history: seq<Report>

    /** The open set is exactly the cars whose latest flag was true; the stops are exactly those of the history. */
    ghost predicate Valid()
      reads this
    {
      IsOpen(history, open) && recorded == StopsOf(limit, history)
    }

    constructor (limit: int)
      ensures Valid() && this.limit == limit && history == []
    {
      this.limit, open, recorded, history := limit, map[], [], [];
    }

    method Enter(report: Report)
      requires Valid() && report.Report? && report.inPit
      modifies this
      ensures Valid() && history == old(history) + [report]
    {
      EntryOpens(limit, history, open, report);
      open := open[report.car := VisitOf(report)];
      history := history + [report];
    }

    method Leave(report: Report)
      requires Valid() && report.Report? && !report.inPit
      modifies this
      ensures Valid() && history == old(history) + [report]
    {
      ExitCloses(limit, history, open, report);
      history := history + [report];
      if report.car !in open {
        assert open - {report.car} == open;
        return;
      }
      var visit := open[report.car];
      open := open - {report.car};
      if !visit.observedEntry {
        return;
      }
      var elapsed := report.at - visit.startedAt;
      if elapsed <= 0 || limit <= elapsed {
        return;
      }
      if report.status != "" && visit.status != report.status {
        return;
      }
      recorded := recorded + [PitStop(report.car, elapsed, visit.lap, visit.startedAt)];
    }

    /** A status that the session had without any report of a car. */
    ghost method Note(status: string)
      requires Valid()
      modifies this`history
      ensures Valid() && history == old(history) + [Seen(status)]
    {
      StatusAloneChangesNothing(limit, history, open, status);
      history := history + [Seen(status)];
    }

    method ObserveLine(line: Field, moment: int, status: string, initial: bool, laps: map<string, int>)
      requires Valid()
      modifies this
      ensures Valid() && history == old(history) + LineReport(line, moment, status, initial, laps)
    {
      var flag := PitFlag(line.value);
      if flag.None? {
        return;
      }
      var lap := if line.key in laps then Some(laps[line.key]) else None;
      if flag.value {
        Enter(Report(line.key, true, moment, status, initial, lap));
      } else {
        Leave(Report(line.key, false, moment, status, initial, lap));
      }
    }

    method Observe(payload: Json, receivedAt: int, feedTimestamp: Option<int>, status: string, initial: bool,
                   laps: map<string, int>)
      requires Valid()
      modifies this
      ensures Valid()
      ensures history == old(history)
              + ReportsIn(LinesOf(payload), feedTimestamp.GetOr(receivedAt), status, initial, laps)
    {
      var lines := LinesOf(payload);
      var moment := feedTimestamp.GetOr(receivedAt);
      for i := 0 to |lines|
        invariant Valid() && history == old(history) + ReportsIn(lines[..i], moment, status, initial, laps)
      {
        ReportsOneMore(old(history), lines, i, moment, status, initial, laps);
        ObserveLine(lines[i], moment, status, initial, laps);
      }
      assert lines[..|lines|] == lines;
    }

    /** Completed stops, quickest first, then earliest; `round` is the rounding of their length. */
    function Stops(round: int -> int): (listing: seq<PitStop>)
      requires Valid()
      reads this
      ensures InListingOrder(round, listing)
      ensures forall i, j :: 0 <= i < j < |listing| ==>
                && round(listing[i].elapsed) <= round(listing[j].elapsed)
                && (round(listing[i].elapsed) == round(listing[j].elapsed) ==>
                    listing[i].enteredAt <= listing[j].enteredAt)
      ensures forall s :: s in listing <==> s in StopsOf(limit, history)
      ensures forall like :: TiedWith(round, listing, like) == TiedWith(round, StopsOf(limit, history), like)
    {
      ListingIsStableSort(round, recorded);
      Listing(round, recorded)
    }

    /** Cars whose latest pit flag was true. */
    function InPitLane(): (cars: set<string>)
      requires Valid()
      reads this
      ensures forall car :: car in cars <==>
                var latest := LatestReport(history, |history|, car); latest.Some? && history[latest.value].inPit
    {
      open.Keys
    }
  }

  lemma ReportsGrow(limit: int, history: seq<Report>, report: Report)
    requires report.Report?
    ensures var longer := history + [report];
            && (forall car :: LatestReport(longer, |longer|, car)
                  == if car == report.car then Some(|history|) else LatestReport(history, |history|, car))
            && StopsOf(limit, longer)
               == (var entry := LatestReport(history, |history|, report.car);
                   if entry.Some? && IsStop(limit, longer, entry.value, |history|)
                   then StopsOf(limit, history) + [StopFrom(longer, entry.value, |history|)]
                   else StopsOf(limit, history))
  {
    var longer := history + [report];
    assert longer[..|history|] == history;
    forall car ensures LatestReport(longer, |longer|, car)
                  == if car == report.car then Some(|history|) else LatestReport(history, |history|, car)
    {
      LatestOfPrefix(history, report, |history|, car);
    }
    LatestOfPrefix(history, report, |history|, report.car);
  }

  lemma StatusAloneChangesNothing(limit: int, history: seq<Report>, open: map<string, Visit>, status: string)
    requires IsOpen(history, open)
    ensures IsOpen(history + [Seen(status)], open)
            && StopsOf(limit, history + [Seen(status)]) == StopsOf(limit, history)
  {
    var longer := history + [Seen(status)];
    assert longer[..|history|] == history;
    forall car ensures LatestReport(longer, |longer|, car) == LatestReport(history, |history|, car) {
      LatestOfPrefix(history, Seen(status), |history|, car);
    }
  }

  lemma ReportsOneMore(before: seq<Report>, lines: seq<Field>, i: nat, at: int, status: string, initial: bool,
                       laps: map<string, int>)
    requires i < |lines|
    ensures before + ReportsIn(lines[..i + 1], at, status, initial, laps)
            == before + ReportsIn(lines[..i], at, status, initial, laps)
              + LineReport(lines[i], at, status, initial, laps)
  {
    assert lines[..i + 1][..i] == lines[..i];
  }

  lemma EntryOpens(limit: int, history: seq<Report>, open: map<string, Visit>, report: Report)
    requires IsOpen(history, open) && report.Report? && report.inPit
    ensures IsOpen(history + [report], open[report.car := VisitOf(report)])
    ensures StopsOf(limit, history + [report]) == StopsOf(limit, history)
  {
    ReportsGrow(limit, history, report);
  }

  /** An exit closes the visit, and is a stop exactly when the tracker's three conditions hold of that visit. */
  lemma ExitCloses(limit: int, history: seq<Report>, open: map<string, Visit>, report: Report)
    requires IsOpen(history, open) && report.Report? && !report.inPit
    ensures IsOpen(history + [report], open - {report.car})
    ensures StopsOf(limit, history + [report])
            == if report.car in open && Counts(limit, open[report.car], report)
               then StopsOf(limit, history) + [PitStop(report.car, report.at - open[report.car].startedAt,
                                                       open[report.car].lap, open[report.car].startedAt)]
               else StopsOf(limit, history)
  {
    ReportsGrow(limit, history, report);
    ExitIsStopExactlyWhen(limit, history, open, report);
  }

  predicate Counts(limit: int, visit: Visit, report: Report)
    requires report.Report?
  {
    && visit.observedEntry
    && 0 < report.at - visit.startedAt < limit
    && (report.status != "" ==> visit.status == report.status)
  }

  /** Between its latest report and a new one of the same car lies none of it. */
  lemma NothingSince(history: seq<Report>, report: Report, i: nat)
    requires report.Report? && LatestReport(history, |history|, report.car) == Some(i)
    ensures var longer := history + [report];
            longer[i] == history[i] && longer[|history|] == report
            && forall k :: i < k < |history| ==> !longer[k].Of(report.car)
  {
    var longer := history + [report];
    forall k | i < k < |history| ensures !longer[k].Of(report.car) {
      assert longer[k] == history[k];
    }
  }

  lemma ExitIsStopExactlyWhen(limit: int, history: seq<Report>, open: map<string, Visit>, report: Report)
    requires IsOpen(history, open) && report.Report? && !report.inPit
    ensures var entry, longer := LatestReport(history, |history|, report.car), history + [report];
            (entry.Some? && IsStop(limit, longer, entry.value, |history|))
            <==> (report.car in open && Counts(limit, open[report.car], report))
  {
    var entry, longer := LatestReport(history, |history|, report.car), history + [report];
    if entry.Some? {
      NothingSince(history, report, entry.value);
    }
  }
}
