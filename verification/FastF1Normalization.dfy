/**
 Turning one loaded session into a snapshot. Every snapshot that comes out satisfies the persistence contract, and
 also the distinctness that only the unique indexes check; the rows it refuses are exactly the ambiguous ones.
 Each source cell arrives as its converter leaves it: absent, a value, or rejected.
 */
module FastF1Normalization {
  import opened Wrappers
  import opened ArchiveSnapshot

  datatype Cell<T> = Absent | Holds(value: T) | Rejected {
    function Get(): Option<T> { if Holds? then Some(value) else None }
  }

  /** One row of the results frame; columns that are only copied travel together. */
  datatype RawResult = RawResult(
    driverId: Cell<string>,
    number: Cell<string>,
    abbreviation: Cell<string>,
    broadcastName: Cell<string>,
    givenName: Cell<string>,
    familyName: Cell<string>,
    fullName: Cell<string>,
    countryCode: Cell<string>,
    team: Cell<(Option<string>, Option<string>, Option<string>)>,
    position: Cell<int>,
    lapsCompleted: Cell<int>,
    time: Cell<int>,
    copied: Cell<ResultFacts>)

  datatype RawLap = RawLap(number: Cell<string>, abbreviation: Cell<string>, lapNumber: Cell<int>,
                           copied: Cell<LapFacts>)

  datatype NormalizationError =
    | NoResults
    | BadCell
    | NoIdentity
    | DuplicateKey
    | DuplicateDriver
    | DuplicateNumber
    | DuplicateAbbreviation
    | NoDisplayName
    | NotOneWinner
    | UnknownNumber
    | AbbreviationMismatch
    | UnmatchedLap
    | DuplicateLap

  // ---------------------------------------------------------------- one result row

  predicate CellsUsable(row: RawResult) {
    && !row.driverId.Rejected? && !row.number.Rejected? && !row.abbreviation.Rejected? && !row.broadcastName.Rejected?
    && !row.givenName.Rejected? && !row.familyName.Rejected? && !row.fullName.Rejected? && !row.countryCode.Rejected?
    && !row.team.Rejected? && !row.position.Rejected? && !row.lapsCompleted.Rejected? && !row.time.Rejected?
    && row.copied.Holds?
  }

  function EntryKey(row: RawResult): Option<string> {
    if row.driverId.Holds? then Some("driver:jolpica:" + row.driverId.value)
    else if row.number.Holds? then Some("car-number:" + row.number.value)
    else None
  }

  function JoinedName(row: RawResult): Option<string> {
    match (row.givenName, row.familyName)
    case (Holds(given), Holds(family)) => Some(given + " " + family)
    case (Holds(given), _) => Some(given)
    case (_, Holds(family)) => Some(family)
    case _ => None
  }

  function DisplayName(row: RawResult): Option<string> {
    row.fullName.Get().Or(JoinedName(row)).Or(row.broadcastName.Get()).Or(row.abbreviation.Get())
  }

  /** A row that can stand on its own: readable, identified and named. */
  predicate RowUsable(row: RawResult) {
    CellsUsable(row) && EntryKey(row).Some? && DisplayName(row).Some?
  }

  function EntryOf(row: RawResult): Entry
    requires RowUsable(row)
  {
    var team := row.team.Get().GetOr((None, None, None));
    Entry(EntryKey(row).value, row.driverId.Get(), row.number.Get(),
          EntryFacts(row.abbreviation.Get(), row.broadcastName.Get(), DisplayName(row).value, team.0, team.1, team.2),
          FastF1Archive, Finalized)
  }

  function DriverOf(row: RawResult): Driver
    requires RowUsable(row) && row.driverId.Holds?
  {
    Driver(row.driverId.value,
           DriverFacts(row.givenName.Get(), row.familyName.Get(), row.fullName.Get().GetOr(DisplayName(row).value),
                       row.countryCode.Get()))
  }

  // ---------------------------------------------------------------- the result rows together

  /** Two rows that claim the same key, driver, number or abbreviation. */
  predicate RowsCollide(a: RawResult, b: RawResult) {
    || EntryKey(a) == EntryKey(b)
    || (a.driverId.Holds? && a.driverId == b.driverId)
    || (a.number.Holds? && a.number == b.number)
    || (a.abbreviation.Holds? && a.abbreviation == b.abbreviation)
  }

  predicate RowsUsable(rows: seq<RawResult>) {
    && (forall i :: 0 <= i < |rows| ==> RowUsable(rows[i]))
    && (forall i, j :: 0 <= i < j < |rows| ==> !RowsCollide(rows[i], rows[j]))
  }

  function EntriesOf(rows: seq<RawResult>): (r: seq<Entry>)
    requires forall i :: 0 <= i < |rows| ==> RowUsable(rows[i])
    ensures |r| == |rows| && forall i :: 0 <= i < |rows| ==> r[i] == EntryOf(rows[i])
  {
    if rows == [] then [] else EntriesOf(rows[..|rows| - 1]) + [EntryOf(rows[|rows| - 1])]
  }

  function DriversOf(rows: seq<RawResult>): seq<Driver>
    requires forall i :: 0 <= i < |rows| ==> RowUsable(rows[i])
  {
    if rows == [] then []
    else
      var earlier, last := DriversOf(rows[..|rows| - 1]), rows[|rows| - 1];
      if last.driverId.Holds? then earlier + [DriverOf(last)] else earlier
  }

  // ---------------------------------------------------------------- which rows are accepted

  /** Every cell could be read, there is something to identify the row by, and something to show. */
  ghost predicate RowClear(row: RawResult) {
    && !row.driverId.Rejected? && !row.number.Rejected? && !row.abbreviation.Rejected? && !row.broadcastName.Rejected?
    && !row.givenName.Rejected? && !row.familyName.Rejected? && !row.fullName.Rejected? && !row.countryCode.Rejected?
    && !row.team.Rejected? && !row.position.Rejected? && !row.lapsCompleted.Rejected? && !row.time.Rejected?
    && row.copied.Holds?
    && (row.driverId.Holds? || row.number.Holds?)
    && (row.fullName.Holds? || row.givenName.Holds? || row.familyName.Holds? || row.broadcastName.Holds?
        || row.abbreviation.Holds?)
  }

  /** The rows share no driver, no number and no abbreviation. */
  ghost predicate RowsApart(a: RawResult, b: RawResult) {
    && (a.driverId.Holds? ==> b.driverId != a.driverId)
    && (a.number.Holds? ==> b.number != a.number)
    && (a.abbreviation.Holds? ==> b.abbreviation != a.abbreviation)
  }

  ghost predicate RowsClear(rows: seq<RawResult>) {
    && (forall i :: 0 <= i < |rows| ==> RowClear(rows[i]))
    && (forall i, j :: 0 <= i < j < |rows| ==> RowsApart(rows[i], rows[j]))
  }

  lemma SamePrefix(prefix: string, a: string, b: string)
    ensures prefix + a == prefix + b <==> a == b
  {
    if prefix + a == prefix + b {
      assert (prefix + a)[|prefix|..] == a && (prefix + b)[|prefix|..] == b;
    }
  }

  lemma KeysCollide(a: RawResult, b: RawResult)
    requires RowClear(a) && RowClear(b)
    ensures RowsCollide(a, b) <==> !RowsApart(a, b)
  {
    if a.driverId.Holds? && b.driverId.Holds? {
      SamePrefix("driver:jolpica:", a.driverId.value, b.driverId.value);
    } else if !a.driverId.Holds? && !b.driverId.Holds? {
      SamePrefix("car-number:", a.number.value, b.number.value);
    } else {
      assert EntryKey(a).value[0] != EntryKey(b).value[0];
    }
  }

  /** Rows are accepted exactly when each is clear and no two are about the same driver or car. */
  lemma AcceptedExactlyWhenClear(rows: seq<RawResult>)
    ensures RowsUsable(rows) <==> RowsClear(rows)
  {
    forall i | 0 <= i < |rows| ensures RowUsable(rows[i]) <==> RowClear(rows[i]) {
    }
    forall i, j | 0 <= i < j < |rows| && RowClear(rows[i]) && RowClear(rows[j])
      ensures RowsCollide(rows[i], rows[j]) <==> !RowsApart(rows[i], rows[j])
    {
      KeysCollide(rows[i], rows[j]);
    }
  }

  // ---------------------------------------------------------------- results

  predicate Winner(row: RawResult) { row.position == Holds(1) }

  predicate OneWinner(rows: seq<RawResult>) {
    && (exists i :: 0 <= i < |rows| && Winner(rows[i]))
    && (forall i, j :: 0 <= i < j < |rows| ==> !Winner(rows[i]) || !Winner(rows[j]))
  }

  function WinnerLaps(rows: seq<RawResult>): Option<int> {
    if rows == [] then None
    else if Winner(rows[|rows| - 1]) then rows[|rows| - 1].lapsCompleted.Get()
    else WinnerLaps(rows[..|rows| - 1])
  }

  /** In a race the winner's time is elapsed time; everybody else's is a gap, also counted in whole laps. */
  function ResultOf(row: RawResult, raceLike: bool, winnerLaps: Option<int>): SessionResult
    requires RowUsable(row)
  {
    var facts := row.copied.value.(position := row.position.Get(), lapsCompleted := row.lapsCompleted.Get());
    var timed :=
      if !raceLike then facts.(elapsed := None, gapToLeader := None, gapToLeaderLaps := None)
      else if Winner(row) then facts.(elapsed := row.time.Get(), gapToLeader := Some(0), gapToLeaderLaps := Some(0))
      else
        facts.(elapsed := None, gapToLeader := row.time.Get(),
               gapToLeaderLaps :=
                 if winnerLaps.Some? && row.lapsCompleted.Holds?
                 then Some(if row.lapsCompleted.value < winnerLaps.value then winnerLaps.value - row.lapsCompleted.value
                           else 0)
                 else None);
    SessionResult(EntryKey(row).value, timed, FastF1Archive, Finalized)
  }

  function ResultsOf(rows: seq<RawResult>, raceLike: bool, winnerLaps: Option<int>): (r: seq<SessionResult>)
    requires forall i :: 0 <= i < |rows| ==> RowUsable(rows[i])
    ensures |r| == |rows| && forall i :: 0 <= i < |rows| ==> r[i] == ResultOf(rows[i], raceLike, winnerLaps)
  {
    if rows == [] then []
      else ResultsOf(rows[..|rows| - 1], raceLike, winnerLaps) + [ResultOf(rows[|rows| - 1], raceLike, winnerLaps)]
  }

  // ---------------------------------------------------------------- what each row becomes, column by column

  /** The key under which a row is stored: the driver if it is identified, else the car. */
  ghost predicate KeyShows(row: RawResult, key: string) {
    match (row.driverId, row.number)
    case (Holds(driver), _) => key == "driver:jolpica:" + driver
    case (_, Holds(number)) => key == "car-number:" + number
    case _ => false
  }

  /** The name to show: the full one, else what there is of given and family name, else broadcast name, else letters. */
  ghost predicate NameShows(row: RawResult, name: string) {
    match (row.fullName, row.givenName, row.familyName, row.broadcastName, row.abbreviation)
    case (Holds(full), _, _, _, _) => name == full
    case (_, Holds(given), Holds(family), _, _) => name == given + " " + family
    case (_, Holds(given), _, _, _) => name == given
    case (_, _, Holds(family), _, _) => name == family
    case (_, _, _, Holds(broadcast), _) => name == broadcast
    case (_, _, _, _, Holds(letters)) => name == letters
    case _ => false
  }

  /** A stored cell: the value that the source held, and nothing where it held none. */
  ghost predicate CellShows<T(!new)>(cell: Cell<T>, value: Option<T>) {
    && (value.Some? <==> cell.Holds?)
    && (value.Some? ==> cell == Holds(value.value))
  }

  ghost predicate EntryShows(row: RawResult, e: Entry) {
    && KeyShows(row, e.key) && NameShows(row, e.facts.displayName)
    && CellShows(row.driverId, e.driver) && CellShows(row.number, e.number)
    && CellShows(row.abbreviation, e.facts.abbreviation) && CellShows(row.broadcastName, e.facts.broadcastName)
    && (row.team.Holds? ==> (e.facts.teamId, e.facts.teamName, e.facts.teamColor) == row.team.value)
    && (!row.team.Holds? ==> e.facts.teamId.None? && e.facts.teamName.None? && e.facts.teamColor.None?)
    && e.source == FastF1Archive && e.state == Finalized
  }

  ghost predicate DriverShows(row: RawResult, d: Driver) {
    && row.driverId == Holds(d.jolpicaId)
    && CellShows(row.givenName, d.facts.givenName) && CellShows(row.familyName, d.facts.familyName)
    && CellShows(row.countryCode, d.facts.countryCode) && NameShows(row, d.facts.fullName)
  }

  /** In a race the winner may have an elapsed time and is no time and no lap behind. */
  ghost predicate WinnerTimed(row: RawResult, facts: ResultFacts) {
    CellShows(row.time, facts.elapsed) && facts.gapToLeader == Some(0) && facts.gapToLeaderLaps == Some(0)
  }

  /** Everybody else has the time as a gap, and the laps that the winner did and this row did not. */
  ghost predicate GapTimed(rows: seq<RawResult>, row: RawResult, facts: ResultFacts) {
    && facts.elapsed == None && CellShows(row.time, facts.gapToLeader)
    && forall w :: 0 <= w < |rows| && rows[w].position == Holds(1) ==>
         LapsBehind(rows[w].lapsCompleted, row.lapsCompleted, facts.gapToLeaderLaps)
  }

  /** The laps by which `own` falls short of `most`, none when it does not, and unknown when either is. */
  ghost predicate LapsBehind(most: Cell<int>, own: Cell<int>, behind: Option<int>) {
    match (most, own)
    case (Holds(m), Holds(o)) =>
      behind.Some? && 0 <= behind.value && (o <= m ==> o + behind.value == m) && (m < o ==> behind.value == 0)
    case _ => behind == None
  }

  /** The stored result of one row: the three timing columns by role, every other column as it came. */
  ghost predicate ResultShows(rows: seq<RawResult>, row: RawResult, raceLike: bool, r: SessionResult) {
    && KeyShows(row, r.key) && r.source == FastF1Archive && r.state == Finalized
    && CellShows(row.position, r.facts.position) && CellShows(row.lapsCompleted, r.facts.lapsCompleted)
    && row.copied.Holds?
    && r.facts == row.copied.value.(position := r.facts.position, lapsCompleted := r.facts.lapsCompleted,
                                    elapsed := r.facts.elapsed, gapToLeader := r.facts.gapToLeader,
                                    gapToLeaderLaps := r.facts.gapToLeaderLaps)
    && (if !raceLike then r.facts.elapsed == None && r.facts.gapToLeader == None && r.facts.gapToLeaderLaps == None
        else if row.position == Holds(1) then WinnerTimed(row, r.facts)
        else GapTimed(rows, row, r.facts))
  }

  lemma EntryOfShows(row: RawResult)
    requires RowUsable(row)
    ensures EntryShows(row, EntryOf(row)) && (row.driverId.Holds? ==> DriverShows(row, DriverOf(row)))
  {
  }

  lemma {:induction false} OneWinnersLaps(rows: seq<RawResult>, w: nat)
    requires OneWinner(rows) && w < |rows| && Winner(rows[w])
    ensures WinnerLaps(rows) == rows[w].lapsCompleted.Get()
  {
    var n := |rows| - 1;
    if w < n {
      assert !Winner(rows[n]);
      var shorter := rows[..n];
      assert Winner(shorter[w]);
      OneWinnersLaps(shorter, w);
    }
  }

  lemma WinnerOfShows(row: RawResult, winnerLaps: Option<int>)
    requires RowUsable(row) && Winner(row)
    ensures WinnerTimed(row, ResultOf(row, true, winnerLaps).facts)
  {
  }

  lemma OthersOfShow(row: RawResult, most: Cell<int>)
    requires RowUsable(row) && !Winner(row)
    ensures var facts := ResultOf(row, true, most.Get()).facts;
            && facts.elapsed == None && CellShows(row.time, facts.gapToLeader)
            && LapsBehind(most, row.lapsCompleted, facts.gapToLeaderLaps)
  {
  }

  /** The columns that have nothing to do with time. */
  lemma CopiesShow(row: RawResult, raceLike: bool, winnerLaps: Option<int>)
    requires RowUsable(row)
    ensures var r := ResultOf(row, raceLike, winnerLaps);
            && KeyShows(row, r.key) && r.source == FastF1Archive && r.state == Finalized
            && CellShows(row.position, r.facts.position) && CellShows(row.lapsCompleted, r.facts.lapsCompleted)
            && r.facts == row.copied.value.(position := r.facts.position, lapsCompleted := r.facts.lapsCompleted,
                                            elapsed := r.facts.elapsed, gapToLeader := r.facts.gapToLeader,
                                            gapToLeaderLaps := r.facts.gapToLeaderLaps)
  {
  }

  lemma ResultOfShows(rows: seq<RawResult>, i: nat, raceLike: bool)
    requires i < |rows| && RowUsable(rows[i]) && (raceLike ==> OneWinner(rows))
    ensures ResultShows(rows, rows[i], raceLike,
                        ResultOf(rows[i], raceLike, if raceLike then WinnerLaps(rows) else None))
  {
    var row := rows[i];
    CopiesShow(row, raceLike, if raceLike then WinnerLaps(rows) else None);
    if raceLike && Winner(row) {
      WinnerOfShows(row, WinnerLaps(rows));
    } else if raceLike {
      var facts := ResultOf(row, true, WinnerLaps(rows)).facts;
      var one :| 0 <= one < |rows| && Winner(rows[one]);
      OneWinnersLaps(rows, one);
      OthersOfShow(row, rows[one].lapsCompleted);
      forall w | 0 <= w < |rows| && Winner(rows[w])
        ensures LapsBehind(rows[w].lapsCompleted, row.lapsCompleted, facts.gapToLeaderLaps)
      {
        assert w == one;
      }
    }
  }

  /** Exactly one result of a race is the winner's. */
  lemma OneResultWins(rows: seq<RawResult>, results: seq<SessionResult>)
    requires OneWinner(rows) && |results| == |rows|
    requires forall i :: 0 <= i < |rows| ==> ResultShows(rows, rows[i], true, results[i])
    ensures exists w :: 0 <= w < |rows| && WinnerTimed(rows[w], results[w].facts)
                        && forall i :: 0 <= i < |rows| && i != w ==> results[i].facts.elapsed == None
  {
    var w :| 0 <= w < |rows| && Winner(rows[w]);
    assert ResultShows(rows, rows[w], true, results[w]);
    forall i | 0 <= i < |rows| && i != w ensures results[i].facts.elapsed == None {
      assert ResultShows(rows, rows[i], true, results[i]);
    }
  }

  ghost predicate ShownFrom(rows: seq<RawResult>, d: Driver) {
    exists i :: 0 <= i < |rows| && DriverShows(rows[i], d)
  }

  ghost predicate ShownAmong(drivers: seq<Driver>, row: RawResult) {
    exists j :: 0 <= j < |drivers| && DriverShows(row, drivers[j])
  }

  /** The driver list shows the identified rows and nothing else. */
  ghost predicate DriversShow(rows: seq<RawResult>, drivers: seq<Driver>) {
    && (forall j :: 0 <= j < |drivers| ==> ShownFrom(rows, drivers[j]))
    && (forall i :: 0 <= i < |rows| && rows[i].driverId.Holds? ==> ShownAmong(drivers, rows[i]))
  }

  lemma ShownFromMore(rows: seq<RawResult>, row: RawResult, d: Driver)
    requires ShownFrom(rows, d) || DriverShows(row, d)
    ensures ShownFrom(rows + [row], d)
  {
    var allRows := rows + [row];
    if i :| 0 <= i < |rows| && DriverShows(rows[i], d) {
      assert DriverShows(allRows[i], d);
    } else {
      assert DriverShows(allRows[|rows|], d);
    }
  }

  lemma ShownAmongMore(drivers: seq<Driver>, d: Driver, row: RawResult)
    requires ShownAmong(drivers, row) || DriverShows(row, d)
    ensures ShownAmong(drivers + [d], row)
  {
    var all := drivers + [d];
    if j :| 0 <= j < |drivers| && DriverShows(row, drivers[j]) {
      assert DriverShows(row, all[j]);
    } else {
      assert DriverShows(row, all[|drivers|]);
    }
  }

  lemma UnidentifiedRowShows(rows: seq<RawResult>, row: RawResult, drivers: seq<Driver>)
    requires DriversShow(rows, drivers) && !row.driverId.Holds?
    ensures DriversShow(rows + [row], drivers)
  {
    forall j | 0 <= j < |drivers| ensures ShownFrom(rows + [row], drivers[j]) {
      ShownFromMore(rows, row, drivers[j]);
    }
  }

  lemma IdentifiedRowShows(rows: seq<RawResult>, row: RawResult, drivers: seq<Driver>, d: Driver)
    requires DriversShow(rows, drivers) && DriverShows(row, d)
    ensures DriversShow(rows + [row], drivers + [d])
  {
    forall j | 0 <= j < |drivers + [d]| ensures ShownFrom(rows + [row], (drivers + [d])[j]) {
      ShownFromMore(rows, row, (drivers + [d])[j]);
    }
    forall i | 0 <= i < |rows + [row]| && (rows + [row])[i].driverId.Holds?
      ensures ShownAmong(drivers + [d], (rows + [row])[i])
    {
      ShownAmongMore(drivers, d, (rows + [row])[i]);
    }
  }

  lemma {:induction false} DriversOfShow(rows: seq<RawResult>)
    requires forall i :: 0 <= i < |rows| ==> RowUsable(rows[i])
    ensures DriversShow(rows, DriversOf(rows))
  {
    if rows != [] {
      var n := |rows| - 1;
      DriversOfShow(rows[..n]);
      EntryOfShows(rows[n]);
      assert rows[..n] + [rows[n]] == rows;
      if rows[n].driverId.Holds? {
        IdentifiedRowShows(rows[..n], rows[n], DriversOf(rows[..n]), DriverOf(rows[n]));
      } else {
        UnidentifiedRowShows(rows[..n], rows[n], DriversOf(rows[..n]));
      }
    }
  }

  // ---------------------------------------------------------------- laps

  /** The entry a lap belongs to: by racing number when it has one, else by abbreviation. */
  predicate LapBelongs(lap: RawLap, e: Entry) {
    if lap.number.Holds? then
      && e.number == Some(lap.number.value)
      && (lap.abbreviation.Holds? && e.facts.abbreviation.Some? ==>
          e.facts.abbreviation == Some(lap.abbreviation.value))
    else lap.abbreviation.Holds? && e.facts.abbreviation == Some(lap.abbreviation.value)
  }

  predicate LapUsable(lap: RawLap, entries: seq<Entry>) {
    && !lap.number.Rejected? && !lap.abbreviation.Rejected? && lap.lapNumber.Holds? && lap.copied.Holds?
    && exists i :: 0 <= i < |entries| && LapBelongs(lap, entries[i])
  }

  /** The lap row `lap` became `l`. */
  predicate LapBecame(lap: RawLap, entries: seq<Entry>, l: Lap) {
    && (exists i :: 0 <= i < |entries| && LapBelongs(lap, entries[i]) && l.key == entries[i].key)
    && lap.lapNumber == Holds(l.number) && lap.copied == Holds(l.facts)
    && l.source == FastF1Archive && l.state == Finalized
  }

  predicate AbbreviationsDistinct(entries: seq<Entry>) {
    forall i, j :: 0 <= i < j < |entries| && entries[i].facts.abbreviation.Some? ==>
      entries[i].facts.abbreviation != entries[j].facts.abbreviation
  }

  /** With distinct numbers and abbreviations a lap belongs to at most one entry. */
  lemma LapBelongsOnce(lap: RawLap, entries: seq<Entry>, i: nat, j: nat)
    requires NumbersDistinct(entries) && AbbreviationsDistinct(entries) && i < |entries| && j < |entries|
    requires LapBelongs(lap, entries[i]) && LapBelongs(lap, entries[j])
    ensures i == j
  {
    if i < j {
    } else if j < i {
    }
  }

  // ---------------------------------------------------------------- when a session can be normalised

  /** Two laps of one entry with the same number. */
  predicate LapsCollide(a: RawLap, b: RawLap, entries: seq<Entry>) {
    && a.lapNumber == b.lapNumber
    && exists e :: 0 <= e < |entries| && LapBelongs(a, entries[e]) && LapBelongs(b, entries[e])
  }

  predicate LapsUsable(laps: seq<RawLap>, entries: seq<Entry>) {
    && (forall i :: 0 <= i < |laps| ==> LapUsable(laps[i], entries))
    && (forall i, j :: 0 <= i < j < |laps| ==> !LapsCollide(laps[i], laps[j], entries))
  }

  predicate Normalizable(rows: seq<RawResult>, laps: seq<RawLap>, raceLike: bool) {
    && rows != [] && RowsUsable(rows) && (raceLike ==> OneWinner(rows)) && LapsUsable(laps, EntriesOf(rows))
  }

  lemma EntriesDistinct(rows: seq<RawResult>)
    requires RowsUsable(rows)
    ensures var entries := EntriesOf(rows);
            && EntryKeysDistinct(entries) && NumbersDistinct(entries) && EntryDriversDistinct(entries)
            && AbbreviationsDistinct(entries)
  {
    var entries := EntriesOf(rows);
    forall i, j | 0 <= i < j < |rows|
      ensures entries[i].key != entries[j].key
      ensures entries[i].number.Some? ==> entries[i].number != entries[j].number
      ensures entries[i].driver.Some? ==> entries[i].driver != entries[j].driver
      ensures entries[i].facts.abbreviation.Some? ==> entries[i].facts.abbreviation != entries[j].facts.abbreviation
    {
      assert !RowsCollide(rows[i], rows[j]);
    }
  }

  predicate Listed(drivers: seq<Driver>, jolpicaId: string) {
    exists j :: 0 <= j < |drivers| && drivers[j].jolpicaId == jolpicaId
  }

  predicate ListedOnce(drivers: seq<Driver>) {
    forall i, j :: 0 <= i < j < |drivers| ==> drivers[i].jolpicaId != drivers[j].jolpicaId
  }

  lemma ListOneMore(drivers: seq<Driver>, d: Driver)
    requires ListedOnce(drivers) && !Listed(drivers, d.jolpicaId)
    ensures ListedOnce(drivers + [d])
  {
  }

  lemma ListedStays(drivers: seq<Driver>, d: Driver, jolpicaId: string)
    ensures Listed(drivers + [d], jolpicaId) <==> Listed(drivers, jolpicaId) || d.jolpicaId == jolpicaId
  {
    var more := drivers + [d];
    assert more[|drivers|] == d;
    if j :| 0 <= j < |drivers| && drivers[j].jolpicaId == jolpicaId {
      assert more[j].jolpicaId == jolpicaId;
    }
  }

  /** The driver list names exactly the identified rows. */
  lemma {:induction false} DriversListRows(rows: seq<RawResult>, jolpicaId: string)
    requires forall i :: 0 <= i < |rows| ==> RowUsable(rows[i])
    ensures Listed(DriversOf(rows), jolpicaId) <==> exists i :: 0 <= i < |rows| && rows[i].driverId == Holds(jolpicaId)
  {
    if rows != [] {
      var n := |rows| - 1;
      DriversListRows(rows[..n], jolpicaId);
      if rows[n].driverId.Holds? {
        ListedStays(DriversOf(rows[..n]), DriverOf(rows[n]), jolpicaId);
      }
      if i :| 0 <= i < n && rows[..n][i].driverId == Holds(jolpicaId) {
        assert rows[i].driverId == Holds(jolpicaId);
      }
    }
  }

  lemma {:induction false} DriversListedOnce(rows: seq<RawResult>)
    requires RowsUsable(rows)
    ensures ListedOnce(DriversOf(rows))
  {
    if rows != [] {
      var n := |rows| - 1;
      DriversListedOnce(rows[..n]);
      if rows[n].driverId.Holds? {
        DriversListRows(rows[..n], rows[n].driverId.value);
        forall i | 0 <= i < n ensures rows[..n][i].driverId != rows[n].driverId {
          assert !RowsCollide(rows[i], rows[n]);
        }
        ListOneMore(DriversOf(rows[..n]), DriverOf(rows[n]));
      }
    }
  }

  /** Everything that persistence, and the unique indexes behind it, ask of a snapshot. */
  predicate Persistable(s: Snapshot) {
    ValidateSnapshot(s).None? && Indexable(s.entries)
  }

  /** The snapshot of a session: entries and results row by row, drivers of the identified rows, laps one by one. */
  predicate IsSnapshotOf(s: Snapshot, rows: seq<RawResult>, laps: seq<RawLap>, raceLike: bool)
    requires RowsUsable(rows)
  {
    && s.entries == EntriesOf(rows)
    && s.drivers == DriversOf(rows)
    && s.results == ResultsOf(rows, raceLike, if raceLike then WinnerLaps(rows) else None)
    && |s.laps| == |laps| && forall i :: 0 <= i < |laps| ==> LapBecame(laps[i], s.entries, s.laps[i])
  }

  lemma SnapshotDrivers(s: Snapshot, rows: seq<RawResult>, laps: seq<RawLap>, raceLike: bool)
    requires RowsUsable(rows) && IsSnapshotOf(s, rows, laps, raceLike)
    ensures DriversDistinct(s) && DriversMatchEntries(s)
  {
    DriversListedOnce(rows);
    forall i | 0 <= i < |s.entries| && s.entries[i].driver.Some? ensures HasDriver(s, s.entries[i].driver.value) {
      DriversListRows(rows, s.entries[i].driver.value);
      assert rows[i].driverId == Holds(s.entries[i].driver.value);
    }
    forall i | 0 <= i < |s.drivers|
      ensures exists j :: 0 <= j < |s.entries| && s.entries[j].driver == Some(s.drivers[i].jolpicaId) {
      DriversListRows(rows, s.drivers[i].jolpicaId);
      var j :| 0 <= j < |rows| && rows[j].driverId == Holds(s.drivers[i].jolpicaId);
      assert s.entries[j].driver == Some(s.drivers[i].jolpicaId);
    }
  }

  lemma SnapshotResults(s: Snapshot, rows: seq<RawResult>, laps: seq<RawLap>, raceLike: bool)
    requires RowsUsable(rows) && IsSnapshotOf(s, rows, laps, raceLike)
    ensures ResultsMatchEntries(s)
  {
    EntriesDistinct(rows);
    forall i | 0 <= i < |rows| ensures s.results[i].key == s.entries[i].key {
    }
  }

  lemma SnapshotLaps(s: Snapshot, rows: seq<RawResult>, laps: seq<RawLap>, raceLike: bool)
    requires RowsUsable(rows) && LapsUsable(laps, EntriesOf(rows)) && IsSnapshotOf(s, rows, laps, raceLike)
    ensures LapsDistinct(s.laps) && LapsHaveEntries(s)
  {
    EntriesDistinct(rows);
    forall i | 0 <= i < |laps| ensures HasEntry(s, s.laps[i].key) {
      assert LapBecame(laps[i], s.entries, s.laps[i]);
    }
    forall i, j | 0 <= i < j < |laps| ensures s.laps[i].key != s.laps[j].key || s.laps[i].number != s.laps[j].number {
      assert LapBecame(laps[i], s.entries, s.laps[i]) && LapBecame(laps[j], s.entries, s.laps[j]);
      var a :| 0 <= a < |s.entries| && LapBelongs(laps[i], s.entries[a]) && s.laps[i].key == s.entries[a].key;
      var b :| 0 <= b < |s.entries| && LapBelongs(laps[j], s.entries[b]) && s.laps[j].key == s.entries[b].key;
      assert !LapsCollide(laps[i], laps[j], s.entries);
      assert s.laps[i].key == s.laps[j].key ==> a == b;
    }
  }

  lemma SnapshotIsOwned(s: Snapshot, rows: seq<RawResult>, laps: seq<RawLap>, raceLike: bool)
    requires RowsUsable(rows) && IsSnapshotOf(s, rows, laps, raceLike)
    ensures ArchiveOwned(s) && AllFinalized(s)
  {
    forall i | 0 <= i < |s.laps| ensures s.laps[i].source == FastF1Archive && s.laps[i].state == Finalized {
      assert LapBecame(laps[i], s.entries, s.laps[i]);
    }
  }

  /** Main result: whatever normalisation lets through, persistence stores. */
  lemma NormalizedIsPersistable(s: Snapshot, rows: seq<RawResult>, laps: seq<RawLap>, raceLike: bool)
    requires Normalizable(rows, laps, raceLike) && IsSnapshotOf(s, rows, laps, raceLike)
    ensures Persistable(s)
  {
    EntriesDistinct(rows);
    SnapshotDrivers(s, rows, laps, raceLike);
    SnapshotResults(s, rows, laps, raceLike);
    SnapshotLaps(s, rows, laps, raceLike);
    SnapshotIsOwned(s, rows, laps, raceLike);
    assert s.entries != [];
  }

  // ---------------------------------------------------------------- the normaliser

  /** What the row loop has seen: one set for each thing that must not repeat. */
  datatype Seen = Seen(keys: set<string>, drivers: set<string>, numbers: set<string>, abbreviations: set<string>)

  function Add(seen: set<string>, found: Option<string>): set<string> {
    if found.Some? then seen + {found.value} else seen
  }

  function See(seen: Seen, row: RawResult): Seen {
    Seen(Add(seen.keys, EntryKey(row)), Add(seen.drivers, row.driverId.Get()), Add(seen.numbers, row.number.Get()),
         Add(seen.abbreviations, row.abbreviation.Get()))
  }

  function SeenIn(rows: seq<RawResult>): Seen {
    if rows == [] then Seen({}, {}, {}, {}) else See(SeenIn(rows[..|rows| - 1]), rows[|rows| - 1])
  }

  lemma SeenOneMore(rows: seq<RawResult>, row: RawResult)
    ensures SeenIn(rows + [row]) == See(SeenIn(rows), row)
  {
    assert (rows + [row])[..|rows|] == rows;
  }

  /** What a row claims that one of the sets already has. */
  predicate Repeats(seen: Seen, row: RawResult)
    requires EntryKey(row).Some?
  {
    || EntryKey(row).value in seen.keys
    || (row.driverId.Holds? && row.driverId.value in seen.drivers)
    || (row.number.Holds? && row.number.value in seen.numbers)
    || (row.abbreviation.Holds? && row.abbreviation.value in seen.abbreviations)
  }

  predicate CollidesWithAny(rows: seq<RawResult>, row: RawResult) {
    exists i :: 0 <= i < |rows| && RowsCollide(rows[i], row)
  }

  /** A row repeats something seen exactly when it collides with an earlier row. */
  lemma {:induction false} SeenMeansCollision(rows: seq<RawResult>, row: RawResult)
    requires EntryKey(row).Some?
    ensures Repeats(SeenIn(rows), row) <==> CollidesWithAny(rows, row)
  {
    if rows != [] {
      var n := |rows| - 1;
      SeenMeansCollision(rows[..n], row);
      assert Repeats(SeenIn(rows), row) <==> Repeats(SeenIn(rows[..n]), row) || RowsCollide(rows[n], row);
      if i :| 0 <= i < n && RowsCollide(rows[..n][i], row) {
        assert RowsCollide(rows[i], row);
      }
      if i :| 0 <= i < |rows| && RowsCollide(rows[i], row) {
        assert i < n ==> RowsCollide(rows[..n][i], row);
      }
    }
  }

  /** Why one row is refused, given what came before it; checked in column order. */
  function RowError(seen: Seen, row: RawResult): Option<NormalizationError> {
    if row.driverId.Rejected? || row.number.Rejected? then Some(BadCell)
    else if EntryKey(row).None? then Some(NoIdentity)
    else if EntryKey(row).value in seen.keys then Some(DuplicateKey)
    else if row.driverId.Holds? && row.driverId.value in seen.drivers then Some(DuplicateDriver)
    else if row.number.Holds? && row.number.value in seen.numbers then Some(DuplicateNumber)
    else if row.abbreviation.Rejected? then Some(BadCell)
    else if row.abbreviation.Holds? && row.abbreviation.value in seen.abbreviations then Some(DuplicateAbbreviation)
    else if row.broadcastName.Rejected? || row.givenName.Rejected? || row.familyName.Rejected? || row.fullName.Rejected?
    then Some(BadCell)
    else if DisplayName(row).None? then Some(NoDisplayName)
    else if !CellsUsable(row) then Some(BadCell)
    else None
  }

  lemma UsableOneMore(rows: seq<RawResult>, row: RawResult)
    requires RowsUsable(rows)
    ensures RowsUsable(rows + [row]) <==> RowUsable(row) && !CollidesWithAny(rows, row)
  {
    var more := rows + [row];
    assert more[|rows|] == row;
    assert forall i :: 0 <= i < |rows| ==> more[i] == rows[i];
    if i :| 0 <= i < |rows| && RowsCollide(rows[i], row) {
      assert RowsCollide(more[i], more[|rows|]);
    }
  }

  lemma RowErrorMeaning(rows: seq<RawResult>, row: RawResult)
    ensures RowError(SeenIn(rows), row).None? <==> RowUsable(row) && !CollidesWithAny(rows, row)
  {
    if EntryKey(row).Some? {
      SeenMeansCollision(rows, row);
    }
  }

  /** One turn of the row loop. */
  lemma RowTurn(rows: seq<RawResult>, i: nat)
    requires i < |rows| && RowsUsable(rows[..i])
    ensures RowError(SeenIn(rows[..i]), rows[i]).None? <==> RowsUsable(rows[..i + 1])
    ensures RowError(SeenIn(rows[..i]), rows[i]).None? ==> RowUsable(rows[i])
    ensures SeenIn(rows[..i + 1]) == See(SeenIn(rows[..i]), rows[i])
  {
    var done := rows[..i];
    assert rows[..i + 1] == done + [rows[i]];
    RowErrorMeaning(done, rows[i]);
    UsableOneMore(done, rows[i]);
    SeenOneMore(done, rows[i]);
  }

  lemma ListsOneMore(rows: seq<RawResult>, i: nat)
    requires i < |rows| && RowsUsable(rows[..i + 1]) && RowsUsable(rows[..i]) && RowUsable(rows[i])
    ensures EntriesOf(rows[..i + 1]) == EntriesOf(rows[..i]) + [EntryOf(rows[i])]
    ensures DriversOf(rows[..i + 1]) == DriversOf(rows[..i])
            + (if rows[i].driverId.Holds? then [DriverOf(rows[i])] else [])
  {
    assert rows[..i + 1][..i] == rows[..i];
  }

  method NormalizeRows(rows: seq<RawResult>) returns (r: Result<(seq<Entry>, seq<Driver>), NormalizationError>)
    ensures r.Ok? <==> RowsUsable(rows)
    ensures r.Ok? <==> RowsClear(rows)
    ensures r.Ok? ==> r.value == (EntriesOf(rows), DriversOf(rows))
    ensures r.Ok? ==> |r.value.0| == |rows| && forall i :: 0 <= i < |rows| ==> EntryShows(rows[i], r.value.0[i])
    ensures r.Ok? ==> DriversShow(rows, r.value.1)
  {
    AcceptedExactlyWhenClear(rows);
    var entries: seq<Entry>, drivers: seq<Driver> := [], [];
    var seen := Seen({}, {}, {}, {});
    for i := 0 to |rows|
      invariant RowsUsable(rows[..i]) && seen == SeenIn(rows[..i])
      invariant entries == EntriesOf(rows[..i]) && drivers == DriversOf(rows[..i])
    {
      RowTurn(rows, i);
      var error := RowError(seen, rows[i]);
      if error.Some? {
        UsablePrefix(rows, i + 1);
        return Err(error.value);
      }
      ListsOneMore(rows, i);
      seen := See(seen, rows[i]);
      entries := entries + [EntryOf(rows[i])];
      drivers := drivers + (if rows[i].driverId.Holds? then [DriverOf(rows[i])] else []);
    }
    assert rows[..|rows|] == rows;
    forall i | 0 <= i < |rows| ensures EntryShows(rows[i], entries[i]) {
      EntryOfShows(rows[i]);
    }
    DriversOfShow(rows);
    return Ok((entries, drivers));
  }

  lemma UsablePrefix(rows: seq<RawResult>, n: nat)
    requires n <= |rows|
    ensures RowsUsable(rows) ==> RowsUsable(rows[..n])
  {
  }

  method CountWinners(rows: seq<RawResult>) returns (winners: seq<RawResult>)
    ensures |winners| == 1 <==> OneWinner(rows)
    ensures |winners| == 1 ==> winners[0].lapsCompleted.Get() == WinnerLaps(rows)
  {
    winners := [];
    for i := 0 to |rows|
      invariant |winners| == 0 <==> forall k :: 0 <= k < i ==> !Winner(rows[k])
      invariant |winners| == 1 <==> OneWinner(rows[..i])
      invariant |winners| <= 1 ==>
                (if winners == [] then None else winners[0].lapsCompleted.Get()) == WinnerLaps(rows[..i])
    {
      WinnersOneMore(rows, i);
      if Winner(rows[i]) {
        winners := winners + [rows[i]];
      }
    }
    assert rows[..|rows|] == rows;
  }

  lemma WinnersOneMore(rows: seq<RawResult>, i: nat)
    requires i < |rows|
    ensures var none := forall k :: 0 <= k < i ==> !Winner(rows[k]);
            OneWinner(rows[..i + 1]) <==> if Winner(rows[i]) then none else OneWinner(rows[..i])
    ensures WinnerLaps(rows[..i + 1]) == if Winner(rows[i]) then rows[i].lapsCompleted.Get() else WinnerLaps(rows[..i])
  {
    var longer, shorter := rows[..i + 1], rows[..i];
    assert longer[..i] == shorter && longer[i] == rows[i];
    assert forall k :: 0 <= k < i ==> longer[k] == shorter[k] && shorter[k] == rows[k];
  }

  method NormalizeResults(rows: seq<RawResult>, raceLike: bool)
      returns (r: Result<seq<SessionResult>, NormalizationError>)
    requires forall i :: 0 <= i < |rows| ==> RowUsable(rows[i])
    ensures r.Ok? <==> (raceLike ==> OneWinner(rows))
    ensures r.Ok? ==> r.value == ResultsOf(rows, raceLike, if raceLike then WinnerLaps(rows) else None)
    ensures r.Ok? ==> |r.value| == |rows|
                      && forall i :: 0 <= i < |rows| ==> ResultShows(rows, rows[i], raceLike, r.value[i])
    ensures r.Ok? && raceLike ==>
              exists w :: 0 <= w < |rows| && WinnerTimed(rows[w], r.value[w].facts)
                          && forall i :: 0 <= i < |rows| && i != w ==> r.value[i].facts.elapsed == None
  {
    var winnerLaps: Option<int> := None;
    if raceLike {
      var winners := CountWinners(rows);
      if |winners| != 1 {
        return Err(NotOneWinner);
      }
      winnerLaps := winners[0].lapsCompleted.Get();
    }
    var results: seq<SessionResult> := [];
    for i := 0 to |rows|
      invariant results == ResultsOf(rows[..i], raceLike, winnerLaps)
    {
      assert rows[..i + 1][..i] == rows[..i];
      results := results + [ResultOf(rows[i], raceLike, winnerLaps)];
    }
    assert rows[..|rows|] == rows;
    forall i | 0 <= i < |rows| ensures ResultShows(rows, rows[i], raceLike, results[i]) {
      ResultOfShows(rows, i, raceLike);
    }
    if raceLike {
      OneResultWins(rows, results);
    }
    return Ok(results);
  }

  // ---------------------------------------------------------------- the lap loop

  /** The entry a lap row names, or why it names none. */
  method LapEntry(lap: RawLap, entries: seq<Entry>) returns (r: Result<Entry, NormalizationError>)
    requires NumbersDistinct(entries) && AbbreviationsDistinct(entries)
    ensures r.Ok? ==> exists i :: 0 <= i < |entries| && LapBelongs(lap, entries[i]) && r.value == entries[i]
    ensures r.Err? ==> lap.number.Rejected? || lap.abbreviation.Rejected? || forall i :: 0 <= i < |entries| ==>
            !LapBelongs(lap, entries[i])
    ensures lap.number.Rejected? || lap.abbreviation.Rejected? ==> r.Err?
  {
    if lap.number.Rejected? || lap.abbreviation.Rejected? {
      return Err(BadCell);
    }
    if lap.number.Holds? {
      var i := FindNumber(entries, lap.number.value);
      if i.None? {
        return Err(UnknownNumber);
      }
      var entry := entries[i.value];
      if lap.abbreviation.Holds? && entry.facts.abbreviation.Some?
        && lap.abbreviation.value != entry.facts.abbreviation.value {
        return Err(AbbreviationMismatch);
      }
      return Ok(entry);
    }
    if lap.abbreviation.Holds? {
      var i := FindAbbreviation(entries, lap.abbreviation.value);
      if i.Some? {
        return Ok(entries[i.value]);
      }
    }
    return Err(UnmatchedLap);
  }

  method FindNumber(entries: seq<Entry>, number: string) returns (r: Option<nat>)
    requires NumbersDistinct(entries)
    ensures r.Some? ==> r.value < |entries| && entries[r.value].number == Some(number)
    ensures forall i :: 0 <= i < |entries| && entries[i].number == Some(number) ==> r == Some(i)
  {
    for i := 0 to |entries|
      invariant forall k :: 0 <= k < i ==> entries[k].number != Some(number)
    {
      if entries[i].number == Some(number) {
        return Some(i);
      }
    }
    return None;
  }

  method FindAbbreviation(entries: seq<Entry>, abbreviation: string) returns (r: Option<nat>)
    requires AbbreviationsDistinct(entries)
    ensures r.Some? ==> r.value < |entries| && entries[r.value].facts.abbreviation == Some(abbreviation)
    ensures forall i :: 0 <= i < |entries| && entries[i].facts.abbreviation == Some(abbreviation) ==> r == Some(i)
  {
    for i := 0 to |entries|
      invariant forall k :: 0 <= k < i ==> entries[k].facts.abbreviation != Some(abbreviation)
    {
      if entries[i].facts.abbreviation == Some(abbreviation) {
        return Some(i);
      }
    }
    return None;
  }

  function KeysIn(laps: seq<Lap>): set<(string, int)> {
    if laps == [] then {} else KeysIn(laps[..|laps| - 1]) + {(laps[|laps| - 1].key, laps[|laps| - 1].number)}
  }

  lemma {:induction false} KeysInMeaning(laps: seq<Lap>, key: string, number: int)
    ensures (key, number) in KeysIn(laps) <==>
            exists i :: 0 <= i < |laps| && laps[i].key == key && laps[i].number == number
  {
    if laps != [] {
      var shorter := laps[..|laps| - 1];
      KeysInMeaning(shorter, key, number);
      if i :| 0 <= i < |shorter| && shorter[i].key == key && shorter[i].number == number {
        assert laps[i].key == key;
      }
    }
  }

  /** The laps so far. */
  predicate LapsSoFar(laps: seq<RawLap>, entries: seq<Entry>, out: seq<Lap>) {
    |out| == |laps| && forall i :: 0 <= i < |laps| ==> LapBecame(laps[i], entries, out[i])
  }

  /** A lap's key was seen before exactly when the lap collides with an earlier one. */
  lemma SeenLapMeansCollision(laps: seq<RawLap>, entries: seq<Entry>, out: seq<Lap>, lap: RawLap, e: nat)
    requires EntryKeysDistinct(entries) && NumbersDistinct(entries) && AbbreviationsDistinct(entries)
    requires LapsSoFar(laps, entries, out) && e < |entries| && LapBelongs(lap, entries[e]) && lap.lapNumber.Holds?
    ensures (entries[e].key, lap.lapNumber.value) in KeysIn(out) <==>
            exists i :: 0 <= i < |laps| && LapsCollide(laps[i], lap, entries)
  {
    KeysInMeaning(out, entries[e].key, lap.lapNumber.value);
    if i :| 0 <= i < |out| && out[i].key == entries[e].key && out[i].number == lap.lapNumber.value {
      assert LapBecame(laps[i], entries, out[i]);
      var a :| 0 <= a < |entries| && LapBelongs(laps[i], entries[a]) && out[i].key == entries[a].key;
      assert a == e;
      assert LapsCollide(laps[i], lap, entries);
    }
    if i :| 0 <= i < |laps| && LapsCollide(laps[i], lap, entries) {
      var both :| 0 <= both < |entries| && LapBelongs(laps[i], entries[both]) && LapBelongs(lap, entries[both]);
      LapBelongsOnce(lap, entries, both, e);
      assert LapBecame(laps[i], entries, out[i]);
      var a :| 0 <= a < |entries| && LapBelongs(laps[i], entries[a]) && out[i].key == entries[a].key;
      LapBelongsOnce(laps[i], entries, a, e);
    }
  }

  lemma LapsUsableOneMore(laps: seq<RawLap>, i: nat, entries: seq<Entry>)
    requires i < |laps| && LapsUsable(laps[..i], entries)
    ensures LapsUsable(laps[..i + 1], entries)
            <==> LapUsable(laps[i], entries) && !exists j :: 0 <= j < i && LapsCollide(laps[..i][j], laps[i], entries)
    ensures LapsUsable(laps, entries) ==> LapsUsable(laps[..i + 1], entries)
  {
    var longer, shorter := laps[..i + 1], laps[..i];
    assert longer[i] == laps[i];
    assert forall j :: 0 <= j < i ==> longer[j] == shorter[j] && shorter[j] == laps[j];
    if j :| 0 <= j < i && LapsCollide(shorter[j], laps[i], entries) {
      assert LapsCollide(longer[j], longer[i], entries);
    }
  }

  lemma LapOneMore(laps: seq<RawLap>, entries: seq<Entry>, out: seq<Lap>, lap: RawLap, l: Lap)
    requires LapsSoFar(laps, entries, out) && LapBecame(lap, entries, l)
    ensures LapsSoFar(laps + [lap], entries, out + [l])
    ensures KeysIn(out + [l]) == KeysIn(out) + {(l.key, l.number)}
  {
    assert (out + [l])[..|out|] == out;
  }

  /** The checks on one lap row, in column order: its entry, its number, that it is new, and the copied columns. */
  method NormalizeLap(lap: RawLap, entries: seq<Entry>, keys: set<(string, int)>)
      returns (r: Result<Lap, NormalizationError>, ghost e: nat)
    requires EntryKeysDistinct(entries) && NumbersDistinct(entries) && AbbreviationsDistinct(entries)
    ensures r.Ok? ==>
              LapBecame(lap, entries, r.value) && LapUsable(lap, entries) && (r.value.key, r.value.number) !in keys
    ensures LapUsable(lap, entries) ==> e < |entries| && LapBelongs(lap, entries[e])
    ensures r.Ok? ==> e < |entries| && r.value.key == entries[e].key
    ensures r.Err? && LapUsable(lap, entries) ==> (entries[e].key, lap.lapNumber.value) in keys
  {
    e := 0;
    var entry := LapEntry(lap, entries);
    if entry.Err? {
      return Err(entry.error), e;
    }
    e :| 0 <= e < |entries| && LapBelongs(lap, entries[e]) && entry.value == entries[e];
    if !lap.lapNumber.Holds? {
      return Err(BadCell), e;
    }
    if (entry.value.key, lap.lapNumber.value) in keys {
      return Err(DuplicateLap), e;
    }
    if !lap.copied.Holds? {
      return Err(BadCell), e;
    }
    return Ok(Lap(entry.value.key, lap.lapNumber.value, lap.copied.value, FastF1Archive, Finalized)), e;
  }

  method NormalizeLaps(laps: seq<RawLap>, entries: seq<Entry>) returns (r: Result<seq<Lap>, NormalizationError>)
    requires EntryKeysDistinct(entries) && NumbersDistinct(entries) && AbbreviationsDistinct(entries)
    ensures r.Ok? <==> LapsUsable(laps, entries)
    ensures r.Ok? ==> |r.value| == |laps| && forall i :: 0 <= i < |laps| ==> LapBecame(laps[i], entries, r.value[i])
  {
    var out: seq<Lap>, keys: set<(string, int)> := [], {};
    for i := 0 to |laps|
      invariant LapsUsable(laps[..i], entries) && LapsSoFar(laps[..i], entries, out) && keys == KeysIn(out)
    {
      var one, e := NormalizeLap(laps[i], entries, keys);
      LapsUsableOneMore(laps, i, entries);
      if LapUsable(laps[i], entries) {
        SeenLapMeansCollision(laps[..i], entries, out, laps[i], e);
      }
      if one.Err? {
        return Err(one.error);
      }
      LapOneMore(laps[..i], entries, out, laps[i], one.value);
      assert laps[..i + 1] == laps[..i] + [laps[i]];
      out := out + [one.value];
      keys := keys + {(one.value.key, one.value.number)};
    }
    assert laps[..|laps|] == laps;
    return Ok(out);
  }

  /** The whole snapshot, row by row and column by column. */
  ghost predicate SnapshotShows(rows: seq<RawResult>, laps: seq<RawLap>, raceLike: bool, s: Snapshot) {
    && |s.entries| == |rows| && |s.results| == |rows| && |s.laps| == |laps| && DriversShow(rows, s.drivers)
    && (forall i :: 0 <= i < |rows| ==>
          EntryShows(rows[i], s.entries[i]) && ResultShows(rows, rows[i], raceLike, s.results[i]))
    && (forall i :: 0 <= i < |laps| ==> LapBecame(laps[i], s.entries, s.laps[i]))
  }

  /** Main result: a session is normalised exactly when it is unambiguous, and what comes out can be stored. */
  method NormalizeSession(rows: seq<RawResult>, laps: seq<RawLap>, raceLike: bool)
      returns (r: Result<Snapshot, NormalizationError>)
    ensures r.Ok? <==> Normalizable(rows, laps, raceLike)
    ensures r.Ok? ==> IsSnapshotOf(r.value, rows, laps, raceLike) && Persistable(r.value)
    ensures r.Ok? ==> SnapshotShows(rows, laps, raceLike, r.value)
  {
    if rows == [] {
      return Err(NoResults);
    }
    var lists := NormalizeRows(rows);
    if lists.Err? {
      return Err(lists.error);
    }
    EntriesDistinct(rows);
    var results := NormalizeResults(rows, raceLike);
    if results.Err? {
      return Err(results.error);
    }
    var normalizedLaps := NormalizeLaps(laps, lists.value.0);
    if normalizedLaps.Err? {
      return Err(normalizedLaps.error);
    }
    var snapshot := Snapshot(lists.value.1, lists.value.0, results.value, normalizedLaps.value);
    NormalizedIsPersistable(snapshot, rows, laps, raceLike);
    return Ok(snapshot);
  }
}
