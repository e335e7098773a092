/** One session's sporting snapshot, as normalisation hands it to persistence, and the contract persistence checks. */
module ArchiveSnapshot {
  import opened Wrappers

  datatype Source = FastF1Archive | LiveSignalR | Jolpica

  datatype RecordState = Finalized | Provisional

  datatype DriverFacts = DriverFacts(
    givenName: Option<string>, familyName: Option<string>, fullName: string, countryCode: Option<string>)

  datatype EntryFacts = EntryFacts(
    abbreviation: Option<string>, broadcastName: Option<string>, displayName: string,
    teamId: Option<string>, teamName: Option<string>, teamColor: Option<string>)

  datatype ResultFacts = ResultFacts(
    position: Option<int>, classifiedPosition: Option<string>, gridPosition: Option<int>, points: Option<real>,
    status: Option<string>, lapsCompleted: Option<int>, q1: Option<int>, q2: Option<int>, q3: Option<int>,
    elapsed: Option<int>, gapToLeader: Option<int>, gapToLeaderLaps: Option<int>)

  /** The timing and tyre columns of one lap, copied as they are. */
  datatype LapFacts = LapFacts(
    stint: Option<int>, lapTime: Option<int>, pitOut: Option<int>, pitIn: Option<int>, compound: Option<string>,
    position: Option<int>, deleted: Option<bool>, generated: bool, accurate: bool)

  datatype Driver = Driver(jolpicaId: string, facts: DriverFacts)

  datatype Entry = Entry(
    key: string, driver: Option<string>, number: Option<string>, facts: EntryFacts, source: Source, state: RecordState)

  datatype SessionResult = SessionResult(key: string, facts: ResultFacts, source: Source, state: RecordState)

  datatype Lap = Lap(key: string, number: int, facts: LapFacts, source: Source, state: RecordState)

  datatype Snapshot = Snapshot(drivers: seq<Driver>, entries: seq<Entry>, results: seq<SessionResult>, laps: seq<Lap>)

  datatype ContractError =
    | NoEntries
    | DuplicateDriverIds
    | DuplicateEntryKeys
    | DriversDoNotMatchEntries
    | ResultsDoNotMatchEntries
    | DuplicateLaps
    | LapWithoutEntry
    | ForeignSource
    | NotFinalized

  predicate HasEntry(s: Snapshot, key: string) {
    exists i :: 0 <= i < |s.entries| && s.entries[i].key == key
  }

  predicate HasDriver(s: Snapshot, driver: string) {
    exists i :: 0 <= i < |s.drivers| && s.drivers[i].jolpicaId == driver
  }

  predicate DriversDistinct(s: Snapshot) {
    forall i, j :: 0 <= i < j < |s.drivers| ==> s.drivers[i].jolpicaId != s.drivers[j].jolpicaId
  }

  predicate EntryKeysDistinct(entries: seq<Entry>) {
    forall i, j :: 0 <= i < j < |entries| ==> entries[i].key != entries[j].key
  }

  predicate DriversMatchEntries(s: Snapshot) {
    && (forall i :: 0 <= i < |s.entries| && s.entries[i].driver.Some? ==> HasDriver(s, s.entries[i].driver.value))
    && (forall i :: 0 <= i < |s.drivers| ==>
          exists j :: 0 <= j < |s.entries| && s.entries[j].driver == Some(s.drivers[i].jolpicaId))
  }

  predicate HasResult(s: Snapshot, key: string) {
    exists i :: 0 <= i < |s.results| && s.results[i].key == key
  }

  predicate ResultKeysDistinct(results: seq<SessionResult>) {
    forall i, j :: 0 <= i < j < |results| ==> results[i].key != results[j].key
  }

  predicate ResultsMatchEntries(s: Snapshot) {
    && ResultKeysDistinct(s.results)
    && (forall i :: 0 <= i < |s.results| ==> HasEntry(s, s.results[i].key))
    && (forall i :: 0 <= i < |s.entries| ==> HasResult(s, s.entries[i].key))
  }

  predicate LapsDistinct(laps: seq<Lap>) {
    forall i, j :: 0 <= i < j < |laps| ==> laps[i].key != laps[j].key || laps[i].number != laps[j].number
  }

  predicate LapsHaveEntries(s: Snapshot) {
    forall i :: 0 <= i < |s.laps| ==> HasEntry(s, s.laps[i].key)
  }

  predicate ArchiveOwned(s: Snapshot) {
    && (forall i :: 0 <= i < |s.entries| ==> s.entries[i].source == FastF1Archive)
    && (forall i :: 0 <= i < |s.results| ==> s.results[i].source == FastF1Archive)
    && (forall i :: 0 <= i < |s.laps| ==> s.laps[i].source == FastF1Archive)
  }

  predicate AllFinalized(s: Snapshot) {
    && (forall i :: 0 <= i < |s.entries| ==> s.entries[i].state == Finalized)
    && (forall i :: 0 <= i < |s.results| ==> s.results[i].state == Finalized)
    && (forall i :: 0 <= i < |s.laps| ==> s.laps[i].state == Finalized)
  }

  /** The first breach of the persistence contract, in the order in which it is looked for. */
  function ValidateSnapshot(s: Snapshot): Option<ContractError> {
    if s.entries == [] then Some(NoEntries)
    else if !DriversDistinct(s) then Some(DuplicateDriverIds)
    else if !EntryKeysDistinct(s.entries) then Some(DuplicateEntryKeys)
    else if !DriversMatchEntries(s) then Some(DriversDoNotMatchEntries)
    else if !ResultsMatchEntries(s) then Some(ResultsDoNotMatchEntries)
    else if !LapsDistinct(s.laps) then Some(DuplicateLaps)
    else if !LapsHaveEntries(s) then Some(LapWithoutEntry)
    else if !ArchiveOwned(s) then Some(ForeignSource)
    else if !AllFinalized(s) then Some(NotFinalized)
    else None
  }

  /** What the contract does not check but the unique indexes do. */
  predicate NumbersDistinct(entries: seq<Entry>) {
    forall i, j :: 0 <= i < j < |entries| && entries[i].number.Some? ==> entries[i].number != entries[j].number
  }

  /** No number and no driver twice. */
  predicate Indexable(entries: seq<Entry>) { NumbersDistinct(entries) && EntryDriversDistinct(entries) }

  predicate EntryDriversDistinct(entries: seq<Entry>) {
    forall i, j :: 0 <= i < j < |entries| && entries[i].driver.Some? ==> entries[i].driver != entries[j].driver
  }

  /** Two finalised archive entries with their results, and nothing else. */
  function TwoEntries(driver: Option<string>, number: Option<string>, drivers: seq<Driver>): Snapshot {
    var facts := EntryFacts(None, None, "x", None, None, None);
    var result := ResultFacts(None, None, None, None, None, None, None, None, None, None, None, None);
    Snapshot(drivers,
             [Entry("a", driver, number, facts, FastF1Archive, Finalized),
              Entry("b", driver, number, facts, FastF1Archive, Finalized)],
             [SessionResult("a", result, FastF1Archive, Finalized),
              SessionResult("b", result, FastF1Archive, Finalized)],
             [])
  }

  /** A concrete failure: the contract lets through a racing number that two entries share. */
  lemma ContractAdmitsRepeatedNumber()
    ensures var s := TwoEntries(None, Some("44"), []); ValidateSnapshot(s).None? && !NumbersDistinct(s.entries)
  {
    var s := TwoEntries(None, Some("44"), []);
    assert s.entries[0].number == s.entries[1].number;
    MatchedPair(s);
  }

  /** And a driver that two entries share. */
  lemma ContractAdmitsRepeatedDriver()
    ensures var s := TwoEntries(Some("x"), None, [Driver("x", DriverFacts(None, None, "x", None))]);
            ValidateSnapshot(s).None? && !EntryDriversDistinct(s.entries)
  {
    var s := TwoEntries(Some("x"), None, [Driver("x", DriverFacts(None, None, "x", None))]);
    assert s.entries[0].driver == s.entries[1].driver;
    assert s.drivers[0].jolpicaId == "x";
    MatchedPair(s);
  }

  lemma MatchedPair(s: Snapshot)
    requires |s.entries| == |s.results| == 2 && s.entries[0].key == s.results[0].key == "a"
             && s.entries[1].key == s.results[1].key == "b"
    ensures EntryKeysDistinct(s.entries) && ResultsMatchEntries(s)
  {
    assert "a"[0] != "b"[0];
    assert HasEntry(s, "a") && HasEntry(s, "b") && HasResult(s, "a") && HasResult(s, "b");
  }
}
