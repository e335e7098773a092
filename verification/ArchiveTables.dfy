/**
 The sporting tables and their constraints, and what it means that one session holds exactly one snapshot.
 Rows are keyed by their identity; a lap is identified by its entry and number.
 */
module ArchiveTables {
  import opened Wrappers
  import opened ArchiveSnapshot

  type SessionId = int
  type DriverId = int
  type EntryId = int

  datatype DriverRow = DriverRow(jolpicaId: Option<string>, facts: DriverFacts)

  datatype EntryRow = EntryRow(
    session: SessionId, key: string, driver: Option<DriverId>, number: Option<string>, facts: EntryFacts,
    source: Source, state: RecordState)

  datatype ResultRow = ResultRow(facts: ResultFacts, source: Source, state: RecordState)

  datatype LapKey = LapKey(entry: EntryId, number: int)

  datatype LapRow = LapRow(facts: LapFacts, source: Source, state: RecordState)

  datatype Tables = Tables(
    drivers: map<DriverId, DriverRow>,
    entries: map<EntryId, EntryRow>,
    results: map<EntryId, ResultRow>,
    laps: map<LapKey, LapRow>)

  // ---------------------------------------------------------------- constraints

  ghost predicate UniqueDrivers(drivers: map<DriverId, DriverRow>) {
    forall a, b :: a in drivers && b in drivers && a != b && drivers[a].jolpicaId.Some? ==>
      drivers[a].jolpicaId != drivers[b].jolpicaId
  }

  ghost predicate UniqueKeys(entries: map<EntryId, EntryRow>) {
    forall a, b :: a in entries && b in entries && a != b && entries[a].session == entries[b].session ==>
      entries[a].key != entries[b].key
  }

  /** The two partial unique indexes. */
  ghost predicate UniqueNumbers(entries: map<EntryId, EntryRow>) {
    forall a, b :: a in entries && b in entries && a != b && entries[a].session == entries[b].session ==>
      && (entries[a].number.Some? ==> entries[a].number != entries[b].number)
      && (entries[a].driver.Some? ==> entries[a].driver != entries[b].driver)
  }

  predicate DriversExist(entries: map<EntryId, EntryRow>, drivers: map<DriverId, DriverRow>) {
    forall id :: id in entries && entries[id].driver.Some? ==> entries[id].driver.value in drivers
  }

  /** RESTRICT foreign keys: no result or lap without its entry. */
  predicate EntriesExist(t: Tables) {
    && (forall id :: id in t.results ==> id in t.entries)
    && (forall k :: k in t.laps ==> k.entry in t.entries)
  }

  ghost predicate Integrity(t: Tables) {
    UniqueDrivers(t.drivers) && UniqueKeys(t.entries) && UniqueNumbers(t.entries) && DriversExist(t.entries, t.drivers)
    && EntriesExist(t)
  }

  // ---------------------------------------------------------------- the intended meaning of a replacement

  predicate InSession(t: Tables, session: SessionId, id: EntryId) {
    id in t.entries && t.entries[id].session == session
  }

  predicate EntryIs(t: Tables, session: SessionId, id: EntryId, e: Entry) {
    && InSession(t, session, id)
    && var row := t.entries[id];
       && row.key == e.key && row.number == e.number && row.facts == e.facts && row.source == e.source
       && row.state == e.state
       && (row.driver.None? <==> e.driver.None?)
       && (row.driver.Some? ==> row.driver.value in t.drivers && t.drivers[row.driver.value].jolpicaId == e.driver)
  }

  ghost predicate EntryHeld(t: Tables, session: SessionId, e: Entry) {
    exists id :: EntryIs(t, session, id, e)
  }

  ghost predicate DriverHeld(t: Tables, d: Driver) {
    exists id :: id in t.drivers && t.drivers[id] == DriverRow(Some(d.jolpicaId), d.facts)
  }

  /** Each snapshot entry is stored, and nothing else is. */
  ghost predicate EntriesHeld(t: Tables, session: SessionId, s: Snapshot) {
    && (forall i :: 0 <= i < |s.entries| ==> EntryHeld(t, session, s.entries[i]))
    && (forall id :: InSession(t, session, id) ==> HasEntry(s, t.entries[id].key))
  }

  ghost predicate ResultsHeld(t: Tables, session: SessionId, s: Snapshot) {
    && (forall id :: InSession(t, session, id) ==> id in t.results)
    && (forall id, i :: InSession(t, session, id) && 0 <= i < |s.results| && s.results[i].key == t.entries[id].key ==>
          t.results[id] == ResultRow(s.results[i].facts, s.results[i].source, s.results[i].state))
  }

  ghost predicate LapsHeld(t: Tables, session: SessionId, s: Snapshot) {
    && (forall id, i :: InSession(t, session, id) && 0 <= i < |s.laps| && s.laps[i].key == t.entries[id].key ==>
          var k := LapKey(id, s.laps[i].number);
          k in t.laps && t.laps[k] == LapRow(s.laps[i].facts, s.laps[i].source, s.laps[i].state))
    && (forall k :: k in t.laps && InSession(t, session, k.entry) ==>
          exists i :: 0 <= i < |s.laps| && s.laps[i].key == t.entries[k.entry].key && s.laps[i].number == k.number)
  }

  ghost predicate DriversHeld(t: Tables, s: Snapshot) {
    forall i :: 0 <= i < |s.drivers| ==> DriverHeld(t, s.drivers[i])
  }

  /** Entries, results and laps of every other session are exactly what they were. */
  ghost predicate OthersUntouched(before: Tables, after: Tables, session: SessionId) {
    && (forall id :: id in before.entries && before.entries[id].session != session ==>
          id in after.entries && after.entries[id] == before.entries[id])
    && (forall id :: id in after.entries && after.entries[id].session != session ==>
          id in before.entries && before.entries[id].session != session)
    && (forall id :: id in before.entries && before.entries[id].session != session ==>
          && (id in after.results <==> id in before.results)
          && (id in before.results ==> after.results[id] == before.results[id]))
    && (forall k: LapKey :: k.entry in before.entries && before.entries[k.entry].session != session ==>
          && (k in after.laps <==> k in before.laps)
          && (k in before.laps ==> after.laps[k] == before.laps[k]))
  }

  /** An entry that is still in the snapshot keeps its row identity. */
  ghost predicate IdsKept(before: Tables, after: Tables, session: SessionId, s: Snapshot) {
    forall id :: InSession(before, session, id) && HasEntry(s, before.entries[id].key) ==>
      InSession(after, session, id) && after.entries[id].key == before.entries[id].key
  }

  /** Drivers are added or updated, never removed or renamed to another identifier. */
  ghost predicate DriversKept(before: Tables, after: Tables, s: Snapshot) {
    && (forall id :: id in before.drivers ==>
        id in after.drivers && after.drivers[id].jolpicaId == before.drivers[id].jolpicaId)
    && (forall id ::
          && id in before.drivers
          && (before.drivers[id].jolpicaId.None? || !HasDriver(s, before.drivers[id].jolpicaId.value))
          ==> after.drivers[id] == before.drivers[id])
    && (forall id :: id in after.drivers && id !in before.drivers ==>
          after.drivers[id].jolpicaId.Some? && HasDriver(s, after.drivers[id].jolpicaId.value))
  }

  ghost predicate Replaced(before: Tables, after: Tables, session: SessionId, s: Snapshot) {
    && EntriesHeld(after, session, s) && ResultsHeld(after, session, s) && LapsHeld(after, session, s)
    && DriversHeld(after, s)
    && OthersUntouched(before, after, session) && IdsKept(before, after, session, s) && DriversKept(before, after, s)
  }

  /** Rows of the session that another source owns. */
  predicate ForeignRows(t: Tables, session: SessionId) {
    || (exists id :: id in t.entries && InSession(t, session, id) && t.entries[id].source != FastF1Archive)
    || (exists id :: id in t.results && InSession(t, session, id) && t.results[id].source != FastF1Archive)
    || (exists k :: k in t.laps && InSession(t, session, k.entry) && t.laps[k].source != FastF1Archive)
  }

  // ---------------------------------------------------------------- what each statement has done

  ghost predicate DriversDone(was: map<DriverId, DriverRow>, now: map<DriverId, DriverRow>, drivers: seq<Driver>,
                              ids: map<string, DriverId>)
  {
    && (forall id :: id in was ==> id in now && now[id].jolpicaId == was[id].jolpicaId)
    && (forall id :: id in was && (was[id].jolpicaId.None? || was[id].jolpicaId.value !in ids) ==> now[id] == was[id])
    && (forall i :: 0 <= i < |drivers| ==>
          && drivers[i].jolpicaId in ids && ids[drivers[i].jolpicaId] in now
          && now[ids[drivers[i].jolpicaId]] == DriverRow(Some(drivers[i].jolpicaId), drivers[i].facts))
    && (forall jolpicaId :: jolpicaId in ids ==> exists i :: 0 <= i < |drivers| && drivers[i].jolpicaId == jolpicaId)
    && (forall id :: id in now && id !in was ==> now[id].jolpicaId.Some? && now[id].jolpicaId.value in ids)
  }

  function RowOf(session: SessionId, e: Entry, driver: Option<DriverId>): EntryRow {
    EntryRow(session, e.key, driver, e.number, e.facts, e.source, e.state)
  }

  function DriverOf(e: Entry, driverIds: map<string, DriverId>): Option<DriverId> {
    if e.driver.Some? && e.driver.value in driverIds then Some(driverIds[e.driver.value]) else None
  }

  /** After clearing, no entry of the session has a driver or a number; nothing else changed. */
  ghost predicate Cleared(was: map<EntryId, EntryRow>, now: map<EntryId, EntryRow>, session: SessionId) {
    && now.Keys == was.Keys
    && forall id :: id in was ==>
         now[id] == if was[id].session == session then was[id].(driver := None, number := None) else was[id]
  }

  ghost predicate EntriesDone(was: map<EntryId, EntryRow>, now: map<EntryId, EntryRow>, session: SessionId,
                              entries: seq<Entry>, driverIds: map<string, DriverId>, ids: map<string, EntryId>)
  {
    && (forall id :: id in was ==> id in now && now[id].session == was[id].session && now[id].key == was[id].key)
    && (forall id :: id in was && (was[id].session != session || was[id].key !in ids) ==> now[id] == was[id])
    && (forall i :: 0 <= i < |entries| ==>
          && entries[i].key in ids && ids[entries[i].key] in now
          && now[ids[entries[i].key]] == RowOf(session, entries[i], DriverOf(entries[i], driverIds)))
    && (forall key :: key in ids ==> exists i :: 0 <= i < |entries| && entries[i].key == key)
    && (forall id :: id in now && id !in was ==>
        now[id].session == session && now[id].key in ids && ids[now[id].key] == id)
  }

  predicate Clash(a: EntryRow, b: EntryRow) {
    && a.session == b.session && a.key != b.key
    && ((b.number.Some? && a.number == b.number) || (b.driver.Some? && a.driver == b.driver))
  }

  /** Another entry of the session already has this number or this driver. */
  predicate Conflicts(entries: map<EntryId, EntryRow>, row: EntryRow) {
    exists id :: id in entries && Clash(entries[id], row)
  }

  predicate SameNumberOrDriver(a: Entry, b: Entry) {
    (b.number.Some? && a.number == b.number) || (b.driver.Some? && a.driver == b.driver)
  }

  ghost predicate ResultsDone(was: map<EntryId, ResultRow>, now: map<EntryId, ResultRow>, results: seq<SessionResult>,
                              ids: map<string, EntryId>)
  {
    && (forall i :: 0 <= i < |results| && results[i].key in ids ==>
          && ids[results[i].key] in now
          && now[ids[results[i].key]] == ResultRow(results[i].facts, results[i].source, results[i].state))
    && (forall id :: id in was ==> id in now)
    && (forall id :: id in now ==>
          || (id in was && now[id] == was[id])
          || (exists i :: 0 <= i < |results| && results[i].key in ids && ids[results[i].key] == id))
  }

  ghost predicate LapsDone(was: map<LapKey, LapRow>, now: map<LapKey, LapRow>, laps: seq<Lap>,
                           ids: map<string, EntryId>) {
    && (forall i :: 0 <= i < |laps| && laps[i].key in ids ==>
          var k := LapKey(ids[laps[i].key], laps[i].number);
          k in now && now[k] == LapRow(laps[i].facts, laps[i].source, laps[i].state))
    && (forall k :: k in was ==> k in now)
    && (forall k :: k in now ==> (k in was && now[k] == was[k]) || Incoming(laps, ids, k))
  }

  /** The lap is one of the snapshot's. */
  predicate Incoming(laps: seq<Lap>, ids: map<string, EntryId>, k: LapKey) {
    exists i :: 0 <= i < |laps| && laps[i].key in ids && k == LapKey(ids[laps[i].key], laps[i].number)
  }

  predicate Injective(ids: map<string, int>) {
    forall a, b :: a in ids && b in ids && a != b ==> ids[a] != ids[b]
  }

  // ---------------------------------------------------------------- one row at a time

  lemma DriverRowDone(was: map<DriverId, DriverRow>, now: map<DriverId, DriverRow>, drivers: seq<Driver>,
                      ids: map<string, DriverId>, d: Driver, id: DriverId)
    requires UniqueDrivers(now) && DriversDone(was, now, drivers, ids)
    requires d.jolpicaId !in ids
    requires id in now ==> now[id].jolpicaId == Some(d.jolpicaId)
    requires id !in now ==> forall k :: k in now ==> now[k].jolpicaId != Some(d.jolpicaId)
    ensures UniqueDrivers(now[id := DriverRow(Some(d.jolpicaId), d.facts)])
    ensures DriversDone(was, now[id := DriverRow(Some(d.jolpicaId), d.facts)], drivers + [d], ids[d.jolpicaId := id])
  {
    var after, more := now[id := DriverRow(Some(d.jolpicaId), d.facts)], drivers + [d];
    assert more[|drivers|] == d;
    forall i | 0 <= i < |drivers| ensures ids[drivers[i].jolpicaId] != id {
      assert now[ids[drivers[i].jolpicaId]].jolpicaId == Some(drivers[i].jolpicaId);
      assert drivers[i].jolpicaId in ids;
    }
    forall jolpicaId | jolpicaId in ids ensures exists i :: 0 <= i < |more| && more[i].jolpicaId == jolpicaId {
      var i :| 0 <= i < |drivers| && drivers[i].jolpicaId == jolpicaId;
      assert more[i].jolpicaId == jolpicaId;
    }
  }

  /** A row goes where its key already is, or to an identity and key that are both new. */
  predicate Lands(now: map<EntryId, EntryRow>, id: EntryId, row: EntryRow) {
    if id in now then now[id].session == row.session && now[id].key == row.key
    else forall k :: k in now && now[k].session == row.session ==> now[k].key != row.key
  }

  lemma UpsertKeepsUnique(now: map<EntryId, EntryRow>, id: EntryId, row: EntryRow)
    requires UniqueKeys(now) && UniqueNumbers(now) && Lands(now, id, row) && !Conflicts(now, row)
    ensures UniqueKeys(now[id := row]) && UniqueNumbers(now[id := row])
  {
    forall k | k in now && k != id && now[k].session == row.session
      ensures now[k].key != row.key && !Clash(now[k], row)
    {
    }
  }

  lemma EntryRowDone(was: map<EntryId, EntryRow>, now: map<EntryId, EntryRow>, session: SessionId, entries: seq<Entry>,
                     driverIds: map<string, DriverId>, ids: map<string, EntryId>, e: Entry, id: EntryId)
    requires EntriesDone(was, now, session, entries, driverIds, ids) && e.key !in ids
    requires Lands(now, id, RowOf(session, e, DriverOf(e, driverIds)))
    ensures EntriesDone(was, now[id := RowOf(session, e, DriverOf(e, driverIds))], session, entries + [e], driverIds,
                        ids[e.key := id])
  {
    var row := RowOf(session, e, DriverOf(e, driverIds));
    var more := entries + [e];
    assert more[|entries|] == e;
    var after, allIds := now[id := row], ids[e.key := id];
    forall i | 0 <= i < |more|
      ensures more[i].key in allIds && allIds[more[i].key] in after
      ensures after[allIds[more[i].key]] == RowOf(session, more[i], DriverOf(more[i], driverIds))
    {
      if i < |entries| {
        assert entries[i].key in ids;
        assert now[ids[entries[i].key]].key == entries[i].key;
      }
    }
    forall key | key in allIds ensures exists i :: 0 <= i < |more| && more[i].key == key {
      if key in ids {
        var i :| 0 <= i < |entries| && entries[i].key == key;
        assert more[i].key == key;
      }
    }
  }

  lemma EntryIdsInjective(was: map<EntryId, EntryRow>, now: map<EntryId, EntryRow>, session: SessionId,
                          entries: seq<Entry>, driverIds: map<string, DriverId>, ids: map<string, EntryId>)
    requires EntriesDone(was, now, session, entries, driverIds, ids)
    ensures Injective(ids) && forall key :: key in ids ==>
            ids[key] in now && now[ids[key]].session == session && now[ids[key]].key == key
  {
    forall key | key in ids ensures ids[key] in now && now[ids[key]].session == session && now[ids[key]].key == key {
      var i :| 0 <= i < |entries| && entries[i].key == key;
    }
  }

  /** On cleared rows an upsert can only clash with an entry of the same snapshot. */
  lemma ClashIsInSnapshot(was: map<EntryId, EntryRow>, now: map<EntryId, EntryRow>, session: SessionId,
                          entries: seq<Entry>,
                          driverIds: map<string, DriverId>, ids: map<string, EntryId>, e: Entry)
    requires UniqueKeys(now) && EntriesDone(was, now, session, entries, driverIds, ids) && Injective(driverIds)
    requires forall id :: id in was && was[id].session == session ==> was[id].driver.None? && was[id].number.None?
    requires forall i :: 0 <= i < |entries| && entries[i].driver.Some? ==> entries[i].driver.value in driverIds
    requires e.driver.Some? ==> e.driver.value in driverIds
    requires e.key !in ids
    ensures Conflicts(now, RowOf(session, e, DriverOf(e, driverIds))) <==>
              exists i :: 0 <= i < |entries| && SameNumberOrDriver(entries[i], e)
  {
    var row := RowOf(session, e, DriverOf(e, driverIds));
    if id :| id in now && Clash(now[id], row) {
      assert now[id].key in ids;
      var i :| 0 <= i < |entries| && entries[i].key == now[id].key;
      assert ids[entries[i].key] == id;
      assert now[ids[entries[i].key]] == RowOf(session, entries[i], DriverOf(entries[i], driverIds));
    }
    if i :| 0 <= i < |entries| && SameNumberOrDriver(entries[i], e) {
      var id := ids[entries[i].key];
      assert now[id] == RowOf(session, entries[i], DriverOf(entries[i], driverIds));
      assert entries[i].key in ids;
      assert Clash(now[id], row);
    }
  }

  lemma ResultRowDone(was: map<EntryId, ResultRow>, now: map<EntryId, ResultRow>, results: seq<SessionResult>,
                      ids: map<string, EntryId>, r: SessionResult)
    requires ResultsDone(was, now, results, ids) && Injective(ids) && r.key in ids
    requires forall i :: 0 <= i < |results| ==> results[i].key != r.key
    ensures ResultsDone(was, now[ids[r.key] := ResultRow(r.facts, r.source, r.state)], results + [r], ids)
  {
    var more := results + [r];
    assert more[|results|] == r;
    assert forall i :: 0 <= i < |results| ==> more[i] == results[i];
  }

  lemma LapRowDone(was: map<LapKey, LapRow>, now: map<LapKey, LapRow>, laps: seq<Lap>, ids: map<string, EntryId>,
                   l: Lap)
    requires LapsDone(was, now, laps, ids) && Injective(ids) && l.key in ids && LapsDistinct(laps + [l])
    ensures LapsDone(was, now[LapKey(ids[l.key], l.number) := LapRow(l.facts, l.source, l.state)], laps + [l], ids)
  {
    var more := laps + [l];
    assert more[|laps|] == l;
    assert forall i :: 0 <= i < |laps| ==> more[i] == laps[i];
    forall k | Incoming(laps, ids, k) ensures Incoming(more, ids, k) {
      var i :| 0 <= i < |laps| && laps[i].key in ids && k == LapKey(ids[laps[i].key], laps[i].number);
      assert more[i].key in ids && k == LapKey(ids[more[i].key], more[i].number);
    }
    assert Incoming(more, ids, LapKey(ids[more[|laps|].key], more[|laps|].number));
  }

  /** Deleting rows of one session that the snapshot does not name. */
  lemma SubsetKeepsUnique(was: map<EntryId, EntryRow>, now: map<EntryId, EntryRow>)
    requires UniqueKeys(was) && UniqueNumbers(was) && forall id :: id in now ==> id in was && now[id] == was[id]
    ensures UniqueKeys(now) && UniqueNumbers(now)
  {
  }
}
