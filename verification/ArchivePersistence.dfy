/**
 Replacing one session's archive snapshot, statement by statement. Every statement, and every row of it, leaves all
 unique indexes and foreign keys satisfied, so no intermediate state could make the database refuse the next one.
 */
module ArchivePersistence {
  import opened Wrappers
  import opened ArchiveSnapshot
  import opened ArchiveTables

  const LAP_UPSERT_BATCH_SIZE := 500

  datatype TargetIdentity = TargetIdentity(session: SessionId, season: int, round: int, name: string)

  datatype PersistError =
    | Contract(error: ContractError)
    | ExpectationMismatch
    | SessionNotFound
    | TargetChanged
    | SourceConflict
    | UniqueViolation

  datatype Summary = Summary(drivers: nat, entries: nat, results: nat, laps: nat)

  // ---------------------------------------------------------------- the three deletes

  function KeepLaps(entries: map<EntryId, EntryRow>, laps: map<LapKey, LapRow>, session: SessionId, incoming: seq<Lap>,
                    ids: map<string, EntryId>): map<LapKey, LapRow>
  {
    map k | k in laps && !(k.entry in entries && entries[k.entry].session == session && laps[k].source == FastF1Archive
                           && !Incoming(incoming, ids, k)) :: laps[k]
  }

  function KeepResults(entries: map<EntryId, EntryRow>, results: map<EntryId, ResultRow>, session: SessionId,
                       ids: map<string, EntryId>): map<EntryId, ResultRow>
  {
    map id | id in results && !(id in entries && entries[id].session == session && results[id].source == FastF1Archive
                                && id !in ids.Values) :: results[id]
  }

  function KeepEntries(entries: map<EntryId, EntryRow>, session: SessionId, ids: map<string, EntryId>)
      : map<EntryId, EntryRow> {
    map id | id in entries
      && !(entries[id].session == session && entries[id].source == FastF1Archive && id !in ids.Values)
      :: entries[id]
  }

  // ---------------------------------------------------------------- the whole replacement on values

  /** The statements of one replacement, from the tables before it to the tables after it. */
  ghost predicate Statements(before: Tables, after: Tables, session: SessionId, s: Snapshot,
                             cleared: map<EntryId, EntryRow>,
                             upserted: Tables, driverIds: map<string, DriverId>, ids: map<string, EntryId>)
  {
    && DriversDone(before.drivers, upserted.drivers, s.drivers, driverIds)
    && Cleared(before.entries, cleared, session)
    && EntriesDone(cleared, upserted.entries, session, s.entries, driverIds, ids)
    && ResultsDone(before.results, upserted.results, s.results, ids)
    && LapsDone(before.laps, upserted.laps, s.laps, ids)
    && after.drivers == upserted.drivers
    && after.laps == KeepLaps(upserted.entries, upserted.laps, session, s.laps, ids)
    && after.results == KeepResults(upserted.entries, upserted.results, session, ids)
    && after.entries == KeepEntries(upserted.entries, session, ids)
  }

  /** An entry of the session is one the snapshot names, or one that stays stale until it is deleted. */
  lemma SessionEntryAfter(before: Tables, after: Tables, session: SessionId, s: Snapshot,
                          cleared: map<EntryId, EntryRow>,
                          upserted: Tables, driverIds: map<string, DriverId>, ids: map<string, EntryId>, id: EntryId)
    requires Statements(before, after, session, s, cleared, upserted, driverIds, ids)
    requires UniqueKeys(upserted.entries) && !ForeignRows(before, session)
    requires id in upserted.entries && upserted.entries[id].session == session
    ensures id in after.entries <==> upserted.entries[id].key in ids
    ensures upserted.entries[id].key in ids ==>
            ids[upserted.entries[id].key] == id && after.entries[id] == upserted.entries[id]
    ensures id in ids.Values <==> upserted.entries[id].key in ids
  {
    EntryIdsInjective(cleared, upserted.entries, session, s.entries, driverIds, ids);
    var key := upserted.entries[id].key;
    if key in ids {
      assert ids[key] == id;
      assert id in ids.Values;
    } else {
      assert id in cleared && id in before.entries && InSession(before, session, id);
      assert before.entries[id].source == FastF1Archive;
    }
  }

  lemma EntriesEndHeld(before: Tables, after: Tables, session: SessionId, s: Snapshot, cleared: map<EntryId, EntryRow>,
                       upserted: Tables, driverIds: map<string, DriverId>, ids: map<string, EntryId>)
    requires Statements(before, after, session, s, cleared, upserted, driverIds, ids)
    requires UniqueKeys(upserted.entries) && !ForeignRows(before, session) && DriversMatchEntries(s)
    ensures EntriesHeld(after, session, s)
  {
    forall i | 0 <= i < |s.entries| ensures EntryHeld(after, session, s.entries[i]) {
      var e := s.entries[i];
      var id := ids[e.key];
      SessionEntryAfter(before, after, session, s, cleared, upserted, driverIds, ids, id);
      assert upserted.entries[id] == RowOf(session, e, DriverOf(e, driverIds));
      if e.driver.Some? {
        assert HasDriver(s, e.driver.value);
        var j :| 0 <= j < |s.drivers| && s.drivers[j].jolpicaId == e.driver.value;
        assert after.drivers[driverIds[s.drivers[j].jolpicaId]].jolpicaId == e.driver;
      }
      assert EntryIs(after, session, id, e);
    }
    forall id | InSession(after, session, id) ensures HasEntry(s, after.entries[id].key) {
      SessionEntryAfter(before, after, session, s, cleared, upserted, driverIds, ids, id);
    }
  }

  lemma ResultsEndHeld(before: Tables, after: Tables, session: SessionId, s: Snapshot, cleared: map<EntryId, EntryRow>,
                       upserted: Tables, driverIds: map<string, DriverId>, ids: map<string, EntryId>)
    requires Statements(before, after, session, s, cleared, upserted, driverIds, ids)
    requires UniqueKeys(upserted.entries) && !ForeignRows(before, session) && ResultsMatchEntries(s)
    ensures ResultsHeld(after, session, s)
  {
    forall id | InSession(after, session, id)
      ensures id in after.results
      ensures forall i :: 0 <= i < |s.results| && s.results[i].key == after.entries[id].key ==>
                after.results[id] == ResultRow(s.results[i].facts, s.results[i].source, s.results[i].state)
    {
      SessionEntryAfter(before, after, session, s, cleared, upserted, driverIds, ids, id);
      var key := after.entries[id].key;
      var e :| 0 <= e < |s.entries| && s.entries[e].key == key;
      assert HasResult(s, s.entries[e].key);
      var i :| 0 <= i < |s.results| && s.results[i].key == key;
      assert ids[s.results[i].key] == id;
    }
  }

  lemma LapsEndHeld(before: Tables, after: Tables, session: SessionId, s: Snapshot, cleared: map<EntryId, EntryRow>,
                    upserted: Tables, driverIds: map<string, DriverId>, ids: map<string, EntryId>)
    requires Statements(before, after, session, s, cleared, upserted, driverIds, ids)
    requires UniqueKeys(upserted.entries) && !ForeignRows(before, session) && Integrity(before)
    ensures LapsHeld(after, session, s)
  {
    forall id, i | InSession(after, session, id) && 0 <= i < |s.laps| && s.laps[i].key == after.entries[id].key
      ensures var k := LapKey(id, s.laps[i].number);
              k in after.laps && after.laps[k] == LapRow(s.laps[i].facts, s.laps[i].source, s.laps[i].state)
    {
      SessionEntryAfter(before, after, session, s, cleared, upserted, driverIds, ids, id);
      assert Incoming(s.laps, ids, LapKey(ids[s.laps[i].key], s.laps[i].number));
    }
    forall k | k in after.laps && InSession(after, session, k.entry)
      ensures exists i ::
                0 <= i < |s.laps| && s.laps[i].key == after.entries[k.entry].key && s.laps[i].number == k.number
    {
      SessionEntryAfter(before, after, session, s, cleared, upserted, driverIds, ids, k.entry);
      EntryIdsInjective(cleared, upserted.entries, session, s.entries, driverIds, ids);
      if !Incoming(s.laps, ids, k) {
        assert k in before.laps && InSession(before, session, k.entry);
      }
      var i :| 0 <= i < |s.laps| && s.laps[i].key in ids && k == LapKey(ids[s.laps[i].key], s.laps[i].number);
      assert s.laps[i].key == after.entries[k.entry].key;
    }
  }

  lemma OthersEndUntouched(before: Tables, after: Tables, session: SessionId, s: Snapshot,
                           cleared: map<EntryId, EntryRow>,
                           upserted: Tables, driverIds: map<string, DriverId>, ids: map<string, EntryId>)
    requires Statements(before, after, session, s, cleared, upserted, driverIds, ids)
    ensures OthersUntouched(before, after, session)
  {
    EntryIdsInjective(cleared, upserted.entries, session, s.entries, driverIds, ids);
    forall id | id in before.entries && before.entries[id].session != session
      ensures id in upserted.entries && upserted.entries[id] == before.entries[id] && id !in ids.Values
    {
      assert cleared[id] == before.entries[id];
    }
    forall k: LapKey | k.entry in before.entries && before.entries[k.entry].session != session
      ensures !Incoming(s.laps, ids, k)
    {
    }
  }

  lemma RowsKeepIdentity(before: Tables, after: Tables, session: SessionId, s: Snapshot,
                         cleared: map<EntryId, EntryRow>,
                         upserted: Tables, driverIds: map<string, DriverId>, ids: map<string, EntryId>)
    requires Statements(before, after, session, s, cleared, upserted, driverIds, ids)
    requires UniqueKeys(upserted.entries) && !ForeignRows(before, session)
    ensures IdsKept(before, after, session, s) && DriversKept(before, after, s) && DriversHeld(after, s)
  {
    forall id | InSession(before, session, id) && HasEntry(s, before.entries[id].key)
      ensures InSession(after, session, id) && after.entries[id].key == before.entries[id].key
    {
      var i :| 0 <= i < |s.entries| && s.entries[i].key == before.entries[id].key;
      assert s.entries[i].key in ids;
      SessionEntryAfter(before, after, session, s, cleared, upserted, driverIds, ids, id);
    }
    forall i | 0 <= i < |s.drivers| ensures DriverHeld(after, s.drivers[i]) {
      var id := driverIds[s.drivers[i].jolpicaId];
      assert id in after.drivers && after.drivers[id] == DriverRow(Some(s.drivers[i].jolpicaId), s.drivers[i].facts);
    }
    forall jolpicaId | jolpicaId in driverIds ensures HasDriver(s, jolpicaId) {
    }
  }

  /** The statements together do what a replacement means. */
  lemma StatementsReplace(before: Tables, after: Tables, session: SessionId, s: Snapshot,
                          cleared: map<EntryId, EntryRow>,
                          upserted: Tables, driverIds: map<string, DriverId>, ids: map<string, EntryId>)
    requires Statements(before, after, session, s, cleared, upserted, driverIds, ids)
    requires Integrity(before) && UniqueKeys(upserted.entries) && !ForeignRows(before, session)
    requires DriversMatchEntries(s) && ResultsMatchEntries(s)
    ensures Replaced(before, after, session, s)
  {
    EntriesEndHeld(before, after, session, s, cleared, upserted, driverIds, ids);
    ResultsEndHeld(before, after, session, s, cleared, upserted, driverIds, ids);
    LapsEndHeld(before, after, session, s, cleared, upserted, driverIds, ids);
    OthersEndUntouched(before, after, session, s, cleared, upserted, driverIds, ids);
    RowsKeepIdentity(before, after, session, s, cleared, upserted, driverIds, ids);
  }

  // ---------------------------------------------------------------- the tables of the database

  /** The session is there, and is still the one that was loaded for. */
  predicate Targeted(targets: map<SessionId, TargetIdentity>, session: SessionId, expected: Option<TargetIdentity>) {
    && session in targets
    && (expected.Some? ==> expected.value.session == session && targets[session] == expected.value)
  }

  predicate CanReplace(t: Tables, targets: map<SessionId, TargetIdentity>, session: SessionId, s: Snapshot,
                       expected: Option<TargetIdentity>)
  {
    ValidateSnapshot(s).None? && Targeted(targets, session, expected) && !ForeignRows(t, session)
  }

  /** The session is no longer the one that was loaded for. */
  predicate TargetHasChanged(targets: map<SessionId, TargetIdentity>, session: SessionId,
                             expected: Option<TargetIdentity>) {
    expected.Some? && expected.value.session == session && session in targets && targets[session] != expected.value
  }

  /** Why a replacement is refused: the first thing that stands in its way. */
  ghost predicate RefusedFor(t: Tables, targets: map<SessionId, TargetIdentity>, session: SessionId, s: Snapshot,
                             expected: Option<TargetIdentity>, e: PersistError)
  {
    if ValidateSnapshot(s).Some? then e == Contract(ValidateSnapshot(s).value)
    else if expected.Some? && expected.value.session != session then e == ExpectationMismatch
    else if session !in targets then e == SessionNotFound
    else if TargetHasChanged(targets, session, expected) then e == TargetChanged
    else if ForeignRows(t, session) then e == SourceConflict
    else e == UniqueViolation && !Indexable(s.entries)
  }

  class SportingTables {
    const targets: map<SessionId, TargetIdentity>
    var drivers: map<DriverId, DriverRow>
    var entries: map<EntryId, EntryRow>
    var results: map<EntryId, ResultRow>
    var laps: map<LapKey, LapRow>
    /** The identity sequences; they never run backwards, not even on a rollback. */
    var nextDriver: DriverId
    var nextEntry: EntryId

    ghost function Contents(): Tables
      reads this
    {
      Tables(drivers, entries, results, laps)
    }

    /** No constraint is violated, and no identity will be handed out twice. */
    ghost predicate Valid()
      reads this
    {
      && Integrity(Contents())
      && (forall id :: id in drivers ==> id < nextDriver)
      && (forall id :: id in entries ==> id < nextEntry)
    }

    constructor (targets: map<SessionId, TargetIdentity>)
      ensures Valid() && this.targets == targets && Contents() == Tables(map[], map[], map[], map[])
    {
      this.targets := targets;
      drivers, entries, results, laps := map[], map[], map[], map[];
      nextDriver, nextEntry := 1, 1;
    }

    /** The row that the conflict target finds, or a fresh one. */
    method PlaceDriver(jolpicaId: string) returns (id: DriverId)
      requires Valid()
      modifies this`nextDriver
      ensures Valid() && id < nextDriver && old(nextDriver) <= nextDriver
      ensures id in drivers ==> drivers[id].jolpicaId == Some(jolpicaId)
      ensures id !in drivers ==> forall k :: k in drivers ==> drivers[k].jolpicaId != Some(jolpicaId)
    {
      if k :| k in drivers && drivers[k].jolpicaId == Some(jolpicaId) {
        id := k;
      } else {
        id := nextDriver;
        nextDriver := nextDriver + 1;
      }
    }

    method UpsertDrivers(list: seq<Driver>) returns (ids: map<string, DriverId>)
      requires Valid() && forall i, j :: 0 <= i < j < |list| ==> list[i].jolpicaId != list[j].jolpicaId
      modifies this`drivers, this`nextDriver
      ensures Valid() && DriversDone(old(drivers), drivers, list, ids) && old(nextDriver) <= nextDriver
    {
      ids := map[];
      for i := 0 to |list|
        invariant Valid() && DriversDone(old(drivers), drivers, list[..i], ids) && old(nextDriver) <= nextDriver
      {
        var d := list[i];
        var id := PlaceDriver(d.jolpicaId);
        assert d.jolpicaId !in ids;
        DriverRowDone(old(drivers), drivers, list[..i], ids, d, id);
        assert list[..i + 1] == list[..i] + [d];
        drivers := drivers[id := DriverRow(Some(d.jolpicaId), d.facts)];
        ids := ids[d.jolpicaId := id];
      }
      assert list[..|list|] == list;
    }

    method ClearEntryUniqueValues(session: SessionId)
      requires Valid() && !ForeignRows(Contents(), session)
      modifies this`entries
      ensures Valid() && Cleared(old(entries), entries, session)
    {
      assert forall id :: id in entries && entries[id].session == session ==> InSession(Contents(), session, id);
      entries := map id | id in entries ::
        if entries[id].session == session && entries[id].source == FastF1Archive
        then entries[id].(driver := None, number := None) else entries[id];
    }

    method PlaceEntry(session: SessionId, key: string) returns (id: EntryId)
      requires Valid()
      modifies this`nextEntry
      ensures Valid() && id < nextEntry && old(nextEntry) <= nextEntry
      ensures id in entries ==> entries[id].session == session && entries[id].key == key
      ensures id !in entries ==> forall k :: k in entries && entries[k].session == session ==> entries[k].key != key
    {
      if k :| k in entries && entries[k].session == session && entries[k].key == key {
        id := k;
      } else {
        id := nextEntry;
        nextEntry := nextEntry + 1;
      }
    }

    /** One row of the entry upsert; nothing when the database refuses it for a duplicate number or driver. */
    method UpsertEntry(row: EntryRow) returns (id: Option<EntryId>)
      requires Valid() && (row.driver.Some? ==> row.driver.value in drivers)
      modifies this`entries, this`nextEntry
      ensures Valid() && old(nextEntry) <= nextEntry
      ensures id.None? <==> Conflicts(old(entries), row)
      ensures id.None? ==> entries == old(entries)
      ensures id.Some? ==> Lands(old(entries), id.value, row) && entries == old(entries)[id.value := row]
    {
      if exists k :: k in entries && Clash(entries[k], row) {
        return None;
      }
      var place := PlaceEntry(row.session, row.key);
      UpsertKeepsUnique(entries, place, row);
      entries := entries[place := row];
      return Some(place);
    }

    /** Upserts the snapshot's entries; nothing when two of them share a number or a driver. */
    method UpsertEntries(session: SessionId, list: seq<Entry>, driverIds: map<string, DriverId>)
        returns (ids: Option<map<string, EntryId>>)
      requires Valid() && EntryKeysDistinct(list) && Injective(driverIds)
      requires forall i :: 0 <= i < |list| && list[i].driver.Some? ==>
                 list[i].driver.value in driverIds && driverIds[list[i].driver.value] in drivers
      requires forall id :: id in entries && entries[id].session == session ==>
               entries[id].driver.None? && entries[id].number.None?
      modifies this`entries, this`nextEntry
      ensures Valid() && old(nextEntry) <= nextEntry
      ensures ids.Some? <==> NumbersDistinct(list) && EntryDriversDistinct(list)
      ensures ids.Some? ==> EntriesDone(old(entries), entries, session, list, driverIds, ids.value)
    {
      var placed: map<string, EntryId> := map[];
      for i := 0 to |list|
        invariant Valid() && EntriesDone(old(entries), entries, session, list[..i], driverIds, placed)
                  && old(nextEntry) <= nextEntry
        invariant NumbersDistinct(list[..i]) && EntryDriversDistinct(list[..i])
      {
        var e := list[i];
        assert e.key !in placed;
        var row := RowOf(session, e, DriverOf(e, driverIds));
        ConflictMeansRepetition(old(entries), entries, session, list, i, driverIds, placed);
        ghost var before := entries;
        var id := UpsertEntry(row);
        if id.None? {
          return None;
        }
        EntryRowDone(old(entries), before, session, list[..i], driverIds, placed, e, id.value);
        assert list[..i + 1] == list[..i] + [e];
        placed := placed[e.key := id.value];
      }
      assert list[..|list|] == list;
      return Some(placed);
    }

    method UpsertResults(list: seq<SessionResult>, ids: map<string, EntryId>)
      requires Valid() && ResultKeysDistinct(list) && Injective(ids)
      requires forall i :: 0 <= i < |list| ==> list[i].key in ids && ids[list[i].key] in entries
      modifies this`results
      ensures Valid() && ResultsDone(old(results), results, list, ids)
    {
      for i := 0 to |list|
        invariant Valid() && ResultsDone(old(results), results, list[..i], ids)
      {
        var r := list[i];
        ResultRowDone(old(results), results, list[..i], ids, r);
        assert list[..i + 1] == list[..i] + [r];
        results := results[ids[r.key] := ResultRow(r.facts, r.source, r.state)];
      }
      assert list[..|list|] == list;
    }

    /** The lap rows `list[from..to]` written over `before`. */
    static method WriteLaps(before: map<LapKey, LapRow>, list: seq<Lap>, from: nat, to: nat, ids: map<string, EntryId>,
                            ghost was: map<LapKey, LapRow>)
        returns (after: map<LapKey, LapRow>)
      requires from <= to <= |list| && LapsDistinct(list) && Injective(ids)
      requires forall i :: 0 <= i < |list| ==> list[i].key in ids
      requires LapsDone(was, before, list[..from], ids)
      ensures LapsDone(was, after, list[..to], ids)
      ensures forall k :: k in after ==> k in before || k.entry in ids.Values
    {
      after := before;
      for i := from to to
        invariant LapsDone(was, after, list[..i], ids)
        invariant forall k :: k in after ==> k in before || k.entry in ids.Values
      {
        var l := list[i];
        LapsSoFar(list, i);
        LapRowDone(was, after, list[..i], ids, l);
        after := after[LapKey(ids[l.key], l.number) := LapRow(l.facts, l.source, l.state)];
      }
    }

    /** The laps `list[from..to]`, one statement. */
    method UpsertLapBatch(list: seq<Lap>, from: nat, to: nat, ids: map<string, EntryId>, ghost was: map<LapKey, LapRow>)
      requires Valid() && from <= to <= |list| && LapsDistinct(list) && Injective(ids)
      requires (forall i :: 0 <= i < |list| ==> list[i].key in ids) && forall id :: id in ids.Values ==> id in entries
      requires LapsDone(was, laps, list[..from], ids)
      modifies this`laps
      ensures Valid() && LapsDone(was, laps, list[..to], ids)
    {
      laps := WriteLaps(laps, list, from, to, ids, was);
    }

    method UpsertLaps(list: seq<Lap>, ids: map<string, EntryId>)
      requires Valid() && LapsDistinct(list) && Injective(ids)
      requires (forall i :: 0 <= i < |list| ==> list[i].key in ids) && forall id :: id in ids.Values ==> id in entries
      modifies this`laps
      ensures Valid() && LapsDone(old(laps), laps, list, ids)
    {
      var start := 0;
      while start < |list|
        invariant start <= |list| && Valid() && LapsDone(old(laps), laps, list[..start], ids)
      {
        var end := if start + LAP_UPSERT_BATCH_SIZE < |list| then start + LAP_UPSERT_BATCH_SIZE else |list|;
        UpsertLapBatch(list, start, end, ids, old(laps));
        start := end;
      }
      assert list[..|list|] == list;
    }

    method DeleteStaleLaps(session: SessionId, list: seq<Lap>, ids: map<string, EntryId>)
      requires Valid()
      modifies this`laps
      ensures Valid() && laps == KeepLaps(entries, old(laps), session, list, ids)
    {
      laps := KeepLaps(entries, laps, session, list, ids);
    }

    method DeleteStaleResults(session: SessionId, ids: map<string, EntryId>)
      requires Valid()
      modifies this`results
      ensures Valid() && results == KeepResults(entries, old(results), session, ids)
    {
      results := KeepResults(entries, results, session, ids);
    }

    /** RESTRICT would refuse this if a stale entry still had a result or a lap. */
    method DeleteStaleEntries(session: SessionId, ids: map<string, EntryId>)
      requires Valid()
      requires forall id :: id in entries && id !in KeepEntries(entries, session, ids) ==>
                 id !in results && forall k :: k in laps ==> k.entry != id
      modifies this`entries
      ensures Valid() && entries == KeepEntries(old(entries), session, ids)
    {
      SubsetKeepsUnique(entries, KeepEntries(entries, session, ids));
      entries := KeepEntries(entries, session, ids);
    }

    /** Drivers, then cleared and upserted entries, then results and laps. */
    method UpsertSnapshot(session: SessionId, s: Snapshot)
        returns (ids: Option<map<string, EntryId>>, ghost cleared: map<EntryId, EntryRow>,
                 ghost driverIds: map<string, DriverId>)
      requires Valid() && ValidateSnapshot(s).None? && !ForeignRows(Contents(), session)
      modifies this`drivers, this`entries, this`results, this`laps, this`nextDriver, this`nextEntry
      ensures Valid() && old(nextDriver) <= nextDriver && old(nextEntry) <= nextEntry
      ensures ids.Some? <==> NumbersDistinct(s.entries) && EntryDriversDistinct(s.entries)
      ensures ids.Some? ==> Upserts(old(Contents()), Contents(), session, s, cleared, driverIds, ids.value)
    {
      ghost var before := Contents();
      var placedDrivers := UpsertDrivers(s.drivers);
      driverIds := placedDrivers;
      DriverIdsInjective(before.drivers, drivers, s.drivers, driverIds);
      MatchedDriversPlaced(before.drivers, drivers, s, driverIds);
      ForeignRowsIgnoreDrivers(before, Contents(), session);
      ClearEntryUniqueValues(session);
      cleared := entries;
      ids := UpsertEntries(session, s.entries, placedDrivers);
      if ids.None? {
        return;
      }
      EntryIdsInjective(cleared, entries, session, s.entries, driverIds, ids.value);
      KeysArePlaced(cleared, entries, session, s, driverIds, ids.value);
      UpsertResults(s.results, ids.value);
      UpsertLaps(s.laps, ids.value);
    }

    method DeleteStale(session: SessionId, s: Snapshot, ids: map<string, EntryId>, ghost before: Tables,
                       ghost cleared: map<EntryId, EntryRow>, ghost driverIds: map<string, DriverId>)
      requires Valid() && Upserts(before, Contents(), session, s, cleared, driverIds, ids)
               && !ForeignRows(before, session)
      modifies this`entries, this`results, this`laps
      ensures Valid()
      ensures Statements(before, Contents(), session, s, cleared, old(Contents()), driverIds, ids)
    {
      ghost var upserted := Contents();
      DeleteStaleLaps(session, s.laps, ids);
      DeleteStaleResults(session, ids);
      StaleEntriesAreFree(before, upserted, session, s, cleared, driverIds, ids);
      DeleteStaleEntries(session, ids);
    }

    /** One transaction: the session holds exactly the snapshot afterwards, or nothing has changed. */
    method ReplaceSession(session: SessionId, s: Snapshot, expected: Option<TargetIdentity>)
        returns (r: Result<Summary, PersistError>)
      requires Valid()
      modifies this
      ensures Valid()
      ensures r.Ok? <==> CanReplace(old(Contents()), targets, session, s, expected) && Indexable(s.entries)
      ensures r == Err(UniqueViolation) <==>
                CanReplace(old(Contents()), targets, session, s, expected) && !Indexable(s.entries)
      ensures r.Err? ==> RefusedFor(old(Contents()), targets, session, s, expected, r.error)
      ensures r.Ok? ==> Replaced(old(Contents()), Contents(), session, s)
      ensures r.Ok? ==> r.value == Summary(|s.drivers|, |s.entries|, |s.results|, |s.laps|)
      ensures r.Err? ==> Contents() == old(Contents())
    {
      var error := ValidateSnapshot(s);
      if error.Some? {
        return Err(Contract(error.value));
      }
      if expected.Some? && expected.value.session != session {
        return Err(ExpectationMismatch);
      }
      if session !in targets {
        return Err(SessionNotFound);
      }
      if expected.Some? && targets[session] != expected.value {
        return Err(TargetChanged);
      }
      if ForeignRows(Tables(drivers, entries, results, laps), session) {
        return Err(SourceConflict);
      }
      var saved := Tables(drivers, entries, results, laps);
      var ids, cleared, driverIds := UpsertSnapshot(session, s);
      if ids.None? {
        drivers, entries, results, laps := saved.drivers, saved.entries, saved.results, saved.laps;
        return Err(UniqueViolation);
      }
      ghost var upserted := Contents();
      DeleteStale(session, s, ids.value, saved, cleared, driverIds);
      StatementsReplace(saved, Contents(), session, s, cleared, upserted, driverIds, ids.value);
      return Ok(Summary(|s.drivers|, |s.entries|, |s.results|, |s.laps|));
    }
  }

  lemma LapsSoFar(list: seq<Lap>, i: nat)
    requires LapsDistinct(list) && i < |list|
    ensures list[..i + 1] == list[..i] + [list[i]] && LapsDistinct(list[..i] + [list[i]])
  {
    var more := list[..i] + [list[i]];
    forall a, b | 0 <= a < b < |more| ensures more[a].key != more[b].key || more[a].number != more[b].number {
      assert more[a] == list[a] && more[b] == list[b];
    }
  }

  /** The next row conflicts exactly when the list so far, with it, repeats a number or a driver. */
  lemma ConflictMeansRepetition(was: map<EntryId, EntryRow>, now: map<EntryId, EntryRow>, session: SessionId,
                                list: seq<Entry>, i: nat, driverIds: map<string, DriverId>,
                                  placed: map<string, EntryId>)
    requires i < |list| && NumbersDistinct(list[..i]) && EntryDriversDistinct(list[..i])
    requires UniqueKeys(now) && EntriesDone(was, now, session, list[..i], driverIds, placed) && Injective(driverIds)
    requires forall id :: id in was && was[id].session == session ==> was[id].driver.None? && was[id].number.None?
    requires forall k :: 0 <= k < |list| && list[k].driver.Some? ==> list[k].driver.value in driverIds
    requires list[i].key !in placed
    ensures Conflicts(now, RowOf(session, list[i], DriverOf(list[i], driverIds))) ==> !Indexable(list)
    ensures !Conflicts(now, RowOf(session, list[i], DriverOf(list[i], driverIds))) ==>
              NumbersDistinct(list[..i + 1]) && EntryDriversDistinct(list[..i + 1])
  {
    ClashIsInSnapshot(was, now, session, list[..i], driverIds, placed, list[i]);
    DistinctOneMore(list, i);
  }

  lemma DistinctOneMore(list: seq<Entry>, i: nat)
    requires i < |list| && NumbersDistinct(list[..i]) && EntryDriversDistinct(list[..i])
    ensures (exists j :: 0 <= j < i && SameNumberOrDriver(list[..i][j], list[i])) ==> !Indexable(list)
    ensures (!exists j :: 0 <= j < i && SameNumberOrDriver(list[..i][j], list[i])) ==>
              NumbersDistinct(list[..i + 1]) && EntryDriversDistinct(list[..i + 1])
  {
    if j :| 0 <= j < i && SameNumberOrDriver(list[..i][j], list[i]) {
      assert list[..i][j] == list[j];
    } else {
      forall j | 0 <= j < i ensures !SameNumberOrDriver(list[j], list[i]) {
        assert list[..i][j] == list[j];
      }
    }
  }

  /** What the upserts of one replacement have done. */
  ghost predicate Upserts(before: Tables, now: Tables, session: SessionId, s: Snapshot, cleared: map<EntryId, EntryRow>,
                          driverIds: map<string, DriverId>, ids: map<string, EntryId>)
  {
    && DriversDone(before.drivers, now.drivers, s.drivers, driverIds)
    && Cleared(before.entries, cleared, session)
    && EntriesDone(cleared, now.entries, session, s.entries, driverIds, ids)
    && ResultsDone(before.results, now.results, s.results, ids)
    && LapsDone(before.laps, now.laps, s.laps, ids)
  }

  lemma DriverIdsInjective(was: map<DriverId, DriverRow>, now: map<DriverId, DriverRow>, drivers: seq<Driver>,
                           ids: map<string, DriverId>)
    requires DriversDone(was, now, drivers, ids)
    ensures Injective(ids)
  {
    forall a, b | a in ids && b in ids && a != b ensures ids[a] != ids[b] {
      var i :| 0 <= i < |drivers| && drivers[i].jolpicaId == a;
      var j :| 0 <= j < |drivers| && drivers[j].jolpicaId == b;
    }
  }

  lemma MatchedDriversPlaced(was: map<DriverId, DriverRow>, now: map<DriverId, DriverRow>, s: Snapshot,
                             ids: map<string, DriverId>)
    requires DriversDone(was, now, s.drivers, ids) && DriversMatchEntries(s)
    ensures forall i :: 0 <= i < |s.entries| && s.entries[i].driver.Some? ==>
              s.entries[i].driver.value in ids && ids[s.entries[i].driver.value] in now
  {
    forall i | 0 <= i < |s.entries| && s.entries[i].driver.Some?
      ensures s.entries[i].driver.value in ids && ids[s.entries[i].driver.value] in now
    {
      assert HasDriver(s, s.entries[i].driver.value);
      var j :| 0 <= j < |s.drivers| && s.drivers[j].jolpicaId == s.entries[i].driver.value;
    }
  }

  lemma ForeignRowsIgnoreDrivers(a: Tables, b: Tables, session: SessionId)
    requires a.entries == b.entries && a.results == b.results && a.laps == b.laps
    ensures ForeignRows(a, session) <==> ForeignRows(b, session)
  {
    assert forall id :: InSession(a, session, id) <==> InSession(b, session, id);
  }

  lemma KeysArePlaced(cleared: map<EntryId, EntryRow>, now: map<EntryId, EntryRow>, session: SessionId, s: Snapshot,
                      driverIds: map<string, DriverId>, ids: map<string, EntryId>)
    requires EntriesDone(cleared, now, session, s.entries, driverIds, ids)
    requires ResultsMatchEntries(s) && LapsHaveEntries(s)
    ensures forall i :: 0 <= i < |s.results| ==> s.results[i].key in ids && ids[s.results[i].key] in now
    ensures forall i :: 0 <= i < |s.laps| ==> s.laps[i].key in ids && ids[s.laps[i].key] in now
  {
    forall key | HasEntry(s, key) ensures key in ids && ids[key] in now {
      var i :| 0 <= i < |s.entries| && s.entries[i].key == key;
    }
  }

  /** After the stale laps and results are gone, nothing refers to a stale entry any more. */
  lemma StaleEntriesAreFree(before: Tables, now: Tables, session: SessionId, s: Snapshot,
                            cleared: map<EntryId, EntryRow>,
                            driverIds: map<string, DriverId>, ids: map<string, EntryId>)
    requires Upserts(before, now, session, s, cleared, driverIds, ids) && !ForeignRows(before, session)
    ensures forall id :: id in now.entries && id !in KeepEntries(now.entries, session, ids) ==>
              && id !in KeepResults(now.entries, now.results, session, ids)
              && forall k :: k in KeepLaps(now.entries, now.laps, session, s.laps, ids) ==> k.entry != id
  {
    EntryIdsInjective(cleared, now.entries, session, s.entries, driverIds, ids);
    forall id | id in now.entries && id !in KeepEntries(now.entries, session, ids)
      ensures id !in KeepResults(now.entries, now.results, session, ids)
      ensures forall k :: k in KeepLaps(now.entries, now.laps, session, s.laps, ids) ==> k.entry != id
    {
      assert id !in ids.Values && now.entries[id].session == session;
      assert id in cleared && InSession(before, session, id);
      forall key | key in ids ensures ids[key] != id {
        assert ids[key] in ids.Values;
      }
    }
  }
}
