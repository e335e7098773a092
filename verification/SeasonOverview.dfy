/** The calendar a reader gets: the joined rows of the latest check, grouped by event in one pass. */
module SeasonOverview {
  import opened Wrappers
  import opened SeasonCalendar

  /** One row of the outer join: an event, and one of its sessions if it has any. */
  datatype JoinedRow = JoinedRow(round: Round, session: Option<string>)

  datatype EventGroup = EventGroup(round: Round, sessions: seq<string>)

  /** The session keys of one event, in row order. */
  function SessionsIn(rows: seq<JoinedRow>, round: Round): seq<string> {
    if rows == [] then []
    else
      var last := rows[|rows| - 1];
      var earlier := SessionsIn(rows[..|rows| - 1], round);
      if last.round == round && last.session.Some? then earlier + [last.session.value] else earlier
  }

  predicate SortedByRound(rows: seq<JoinedRow>) {
    forall i, j :: 0 <= i < j < |rows| ==> rows[i].round <= rows[j].round
  }

  predicate Mentions(rows: seq<JoinedRow>, round: Round) {
    exists i :: 0 <= i < |rows| && rows[i].round == round
  }

  predicate HasGroup(groups: seq<EventGroup>, round: Round) {
    exists i :: 0 <= i < |groups| && groups[i].round == round
  }

  lemma HasGroupOneMore(groups: seq<EventGroup>, g: EventGroup, round: Round)
    ensures HasGroup(groups + [g], round) <==> HasGroup(groups, round) || g.round == round
  {
    var more := groups + [g];
    assert more[|groups|] == g;
    if i :| 0 <= i < |groups| && groups[i].round == round {
      assert more[i].round == round;
    }
  }

  predicate Grouped(rows: seq<JoinedRow>, groups: seq<EventGroup>) {
    && (forall i, j :: 0 <= i < j < |groups| ==> groups[i].round < groups[j].round)
    && (forall i :: 0 <= i < |groups| ==>
        Mentions(rows, groups[i].round) && groups[i].sessions == SessionsIn(rows, groups[i].round))
    && (forall k :: 0 <= k < |rows| ==> HasGroup(groups, rows[k].round))
  }

  lemma {:induction false} UnmentionedHasNone(rows: seq<JoinedRow>, round: Round)
    requires !Mentions(rows, round)
    ensures SessionsIn(rows, round) == []
  {
    if rows != [] {
      assert rows[|rows| - 1].round != round;
      var shorter := rows[..|rows| - 1];
      forall i | 0 <= i < |shorter| ensures shorter[i].round != round {
        assert rows[i].round != round;
      }
      UnmentionedHasNone(shorter, round);
    }
  }

  function Grow(groups: seq<EventGroup>, row: JoinedRow): seq<EventGroup>
    requires groups != []
  {
    var last := groups[|groups| - 1];
    if row.session.None? then groups
    else groups[|groups| - 1 := EventGroup(last.round, last.sessions + [row.session.value])]
  }

  lemma MentionsOneMore(rows: seq<JoinedRow>, row: JoinedRow, round: Round)
    ensures Mentions(rows + [row], round) <==> Mentions(rows, round) || row.round == round
  {
    var more := rows + [row];
    assert more[|rows|] == row;
    if i :| 0 <= i < |rows| && rows[i].round == round {
      assert more[i].round == round;
    }
  }

  lemma SessionsOneMore(rows: seq<JoinedRow>, row: JoinedRow, round: Round)
    ensures SessionsIn(rows + [row], round)
            == if row.round == round && row.session.Some? then SessionsIn(rows, round) + [row.session.value]
              else SessionsIn(rows, round)
  {
    assert (rows + [row])[..|rows|] == rows;
  }

  lemma EarlierGroupsComeBefore(rows: seq<JoinedRow>, groups: seq<EventGroup>, row: JoinedRow)
    requires Grouped(rows, groups) && SortedByRound(rows + [row]) && !Mentions(rows, row.round)
    ensures forall i :: 0 <= i < |groups| ==> groups[i].round < row.round
  {
    var more := rows + [row];
    forall i | 0 <= i < |groups| ensures groups[i].round < row.round {
      var k :| 0 <= k < |rows| && rows[k].round == groups[i].round;
      assert more[k].round <= more[|rows|].round;
    }
  }

  /** The group that a first row of an event opens. */
  function FirstGroup(row: JoinedRow): EventGroup {
    EventGroup(row.round, if row.session.None? then [] else [row.session.value])
  }

  lemma GroupAfterFirstRow(rows: seq<JoinedRow>, row: JoinedRow)
    requires !Mentions(rows, row.round)
    ensures SessionsIn(rows + [row], row.round) == FirstGroup(row).sessions && Mentions(rows + [row], row.round)
  {
    UnmentionedHasNone(rows, row.round);
    MentionsOneMore(rows, row, row.round);
    SessionsOneMore(rows, row, row.round);
  }

  lemma NewGroup(rows: seq<JoinedRow>, groups: seq<EventGroup>, row: JoinedRow)
    requires Grouped(rows, groups) && SortedByRound(rows + [row]) && !Mentions(rows, row.round)
    ensures Grouped(rows + [row], groups + [FirstGroup(row)])
  {
    var more, after := rows + [row], groups + [FirstGroup(row)];
    EarlierGroupsComeBefore(rows, groups, row);
    GroupAfterFirstRow(rows, row);
    forall i | 0 <= i < |groups|
      ensures Mentions(more, groups[i].round) && groups[i].sessions == SessionsIn(more, groups[i].round) {
      MentionsOneMore(rows, row, groups[i].round);
      SessionsOneMore(rows, row, groups[i].round);
    }
    forall k | 0 <= k < |more| ensures HasGroup(after, more[k].round) {
      HasGroupOneMore(groups, FirstGroup(row), more[k].round);
      assert k < |rows| ==> more[k] == rows[k];
    }
  }

  lemma SameGroup(rows: seq<JoinedRow>, groups: seq<EventGroup>, row: JoinedRow)
    requires Grouped(rows, groups) && groups != [] && groups[|groups| - 1].round == row.round
    ensures Grouped(rows + [row], Grow(groups, row))
  {
    var more, after := rows + [row], Grow(groups, row);
    forall i | 0 <= i < |after|
      ensures after[i].round == groups[i].round && Mentions(more, after[i].round)
              && after[i].sessions == SessionsIn(more, after[i].round)
    {
      MentionsOneMore(rows, row, after[i].round);
      SessionsOneMore(rows, row, after[i].round);
    }
    forall k | 0 <= k < |more| ensures HasGroup(after, more[k].round) {
      if k < |rows| {
        var i :| 0 <= i < |groups| && groups[i].round == rows[k].round;
        assert after[i].round == more[k].round;
      } else {
        assert after[|groups| - 1].round == row.round;
      }
    }
  }

  /** In sorted rows the last group's event is the only one that can still grow. */
  lemma LastGroupIsLatest(rows: seq<JoinedRow>, groups: seq<EventGroup>, row: JoinedRow)
    requires Grouped(rows, groups) && SortedByRound(rows + [row])
    ensures Mentions(rows, row.round) <==> groups != [] && groups[|groups| - 1].round == row.round
  {
    var more := rows + [row];
    if k :| 0 <= k < |rows| && rows[k].round == row.round {
      assert HasGroup(groups, rows[k].round);
      var i :| 0 <= i < |groups| && groups[i].round == row.round;
      var last := groups[|groups| - 1].round;
      var m :| 0 <= m < |rows| && rows[m].round == last;
      assert more[m].round <= more[|rows|].round;
    }
  }

  function Opened(groups: seq<EventGroup>, row: JoinedRow): (r: seq<EventGroup>)
    ensures r != []
  {
    if groups == [] || groups[|groups| - 1].round != row.round then groups + [EventGroup(row.round, [])] else groups
  }

  lemma GrowOpened(groups: seq<EventGroup>, row: JoinedRow)
    requires groups == [] || groups[|groups| - 1].round != row.round
    ensures Grow(Opened(groups, row), row) == groups + [FirstGroup(row)]
  {
    var begun := groups + [EventGroup(row.round, [])];
    assert begun[|begun| - 1] == EventGroup(row.round, []);
    assert begun[|groups| := FirstGroup(row)] == groups + [FirstGroup(row)];
    if row.session.Some? {
      assert [] + [row.session.value] == [row.session.value];
    }
  }

  lemma GroupTurn(rows: seq<JoinedRow>, groups: seq<EventGroup>, row: JoinedRow)
    requires Grouped(rows, groups) && SortedByRound(rows + [row])
    ensures Grouped(rows + [row], Grow(Opened(groups, row), row))
  {
    LastGroupIsLatest(rows, groups, row);
    if Mentions(rows, row.round) {
      SameGroup(rows, groups, row);
    } else {
      NewGroup(rows, groups, row);
      GrowOpened(groups, row);
    }
  }

  lemma SortedPrefix(rows: seq<JoinedRow>, i: nat)
    requires i < |rows| && SortedByRound(rows)
    ensures SortedByRound(rows[..i] + [rows[i]]) && rows[..i + 1] == rows[..i] + [rows[i]]
  {
    assert rows[..i + 1] == rows[..i] + [rows[i]];
  }

  method GroupRows(rows: seq<JoinedRow>) returns (groups: seq<EventGroup>)
    requires SortedByRound(rows)
    ensures Grouped(rows, groups)
  {
    groups := [];
    for i := 0 to |rows|
      invariant Grouped(rows[..i], groups)
    {
      SortedPrefix(rows, i);
      GroupTurn(rows[..i], groups, rows[i]);
      groups := Opened(groups, rows[i]);
      groups := Grow(groups, rows[i]);
    }
    assert rows[..|rows|] == rows;
  }

  // ---------------------------------------------------------------- the reader sees the schedule

  /** What the outer join over the latest marks returns, ordered by round. */
  ghost predicate IsLatestJoin(c: Calendar, rows: seq<JoinedRow>) {
    && SortedByRound(rows)
    && (forall round :: Mentions(rows, round) <==> EventShown(c, round))
    && (forall i :: 0 <= i < |rows| && rows[i].session.Some? ==>
        SessionShown(c, SessionId(rows[i].round, rows[i].session.value)))
    && (forall id :: SessionShown(c, id) ==>
        exists i :: 0 <= i < |rows| && rows[i] == JoinedRow(id.round, Some(id.key)))
    && (forall i, j :: 0 <= i < j < |rows| && rows[i].session.Some? ==> rows[i] != rows[j])
  }

  lemma {:induction false} SessionsInMeaning(rows: seq<JoinedRow>, round: Round, key: string)
    ensures key in SessionsIn(rows, round) <==> JoinedRow(round, Some(key)) in rows
  {
    if rows != [] {
      SessionsInMeaning(rows[..|rows| - 1], round, key);
      assert rows == rows[..|rows| - 1] + [rows[|rows| - 1]];
    }
  }

  lemma {:induction false} SessionsInDistinct(rows: seq<JoinedRow>, round: Round)
    requires forall i, j :: 0 <= i < j < |rows| && rows[i].session.Some? ==> rows[i] != rows[j]
    ensures forall i, j :: 0 <= i < j < |SessionsIn(rows, round)| ==>
            SessionsIn(rows, round)[i] != SessionsIn(rows, round)[j]
  {
    if rows != [] {
      var n := |rows| - 1;
      SessionsInDistinct(rows[..n], round);
      if rows[n].round == round && rows[n].session.Some? {
        SessionsInMeaning(rows[..n], round, rows[n].session.value);
      }
    }
  }

  /** The groups list a schedule: each event once, in round order, with exactly its sessions, each once. */
  ghost predicate Lists(groups: seq<EventGroup>, s: Schedule) {
    && (forall i, j :: 0 <= i < j < |groups| ==> groups[i].round < groups[j].round)
    && (forall round :: Schedules(s, round) <==> exists i :: 0 <= i < |groups| && groups[i].round == round)
    && (forall i, key :: 0 <= i < |groups| ==>
        (key in groups[i].sessions <==> SchedulesSession(s, SessionId(groups[i].round, key))))
    && (forall i, a, b :: 0 <= i < |groups| && 0 <= a < b < |groups[i].sessions| ==>
        groups[i].sessions[a] != groups[i].sessions[b])
  }

  lemma GroupsListSchedule(c: Calendar, rows: seq<JoinedRow>, groups: seq<EventGroup>, s: Schedule)
    requires Shows(c, s) && IsLatestJoin(c, rows) && Grouped(rows, groups)
    ensures Lists(groups, s)
  {
    forall round ensures Schedules(s, round) <==> exists i :: 0 <= i < |groups| && groups[i].round == round {
      assert Schedules(s, round) <==> Mentions(rows, round);
      if k :| 0 <= k < |rows| && rows[k].round == round {
        assert HasGroup(groups, rows[k].round);
      }
    }
    forall i, key | 0 <= i < |groups|
      ensures key in groups[i].sessions <==> SchedulesSession(s, SessionId(groups[i].round, key))
    {
      SessionsInMeaning(rows, groups[i].round, key);
      SessionRowsAreShown(c, rows, SessionId(groups[i].round, key));
    }
    forall i | 0 <= i < |groups|
      ensures forall a, b :: 0 <= a < b < |groups[i].sessions| ==> groups[i].sessions[a] != groups[i].sessions[b]
    {
      SessionsInDistinct(rows, groups[i].round);
    }
  }

  lemma SessionRowsAreShown(c: Calendar, rows: seq<JoinedRow>, id: SessionId)
    requires IsLatestJoin(c, rows)
    ensures JoinedRow(id.round, Some(id.key)) in rows <==> SessionShown(c, id)
  {
    if JoinedRow(id.round, Some(id.key)) in rows {
      var i :| 0 <= i < |rows| && rows[i] == JoinedRow(id.round, Some(id.key));
    }
  }

  /** Main result: the reader's calendar is the last stored schedule. */
  method LatestCalendar(store: SeasonStore, rows: seq<JoinedRow>) returns (groups: seq<EventGroup>)
    requires store.Valid() && (store.checkedAt.Some? ==> IsLatestJoin(store.Contents(), rows))
    ensures store.last.None? ==> groups == []
    ensures store.last.Some? ==> Lists(groups, store.last.value)
  {
    if store.checkedAt.None? {
      return [];
    }
    groups := GroupRows(rows);
    GroupsListSchedule(store.Contents(), rows, groups, store.last.value);
  }
}
