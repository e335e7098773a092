/** Which session a feed is about, as its own SessionInfo says. */
module SessionIdentity {
  import opened Wrappers
  import opened LiveJson
  import opened LiveFrames

  datatype Identity = Identity(date: int, event: string, key: string)

  function Get(fields: seq<Field>, key: string): Option<Json> {
    if fields == [] then None
    else if fields[|fields| - 1].key == key then Some(fields[|fields| - 1].value)
    else Get(fields[..|fields| - 1], key)
  }

  predicate Truthy(v: Option<Json>) {
    match v
    case None => false
    case Some(Null) => false
    case Some(Bool(b)) => b
    case Some(Int(i)) => i != 0
    case Some(Real(r)) => r != 0.0
    case Some(Text(text)) => text != ""
    case Some(Arr(items)) => items != []
    case Some(Obj(fields)) => fields != []
  }

  predicate IsName(v: Option<Json>) {
    v.Some? && v.value.Text? && !IsBlank(v.value.text)
  }

  function SessionDate(parseDate: string -> Option<int>, start: Option<Json>, fallback: int): int {
    if start.Some? && start.value.Text? && 10 <= |start.value.text|
      then parseDate(start.value.text[..10]).GetOr(fallback)
    else fallback
  }

  /** Who the session is, once the feed has named both the meeting and the session. */
  function IdentityFrom(parseDate: string -> Option<int>, payload: seq<Field>, today: int): Option<Identity> {
    var meeting := Get(payload, "Meeting");
    var event := if meeting.Some? && meeting.value.Obj? then Get(meeting.value.fields, "Name") else None;
    var name := if Truthy(Get(payload, "Name")) then Get(payload, "Name") else Get(payload, "Type");
    if !IsName(event) || !IsName(name) then None
    else Some(Identity(SessionDate(parseDate, Get(payload, "StartDate"), today), event.value.text, name.value.text))
  }

  const SESSION_INFO := "SessionInfo"

  /** A frame that says which session this is; the day it arrives on only matters for a missing date. */
  predicate Names(parseDate: string -> Option<int>, frame: LiveFrame) {
    frame.topic == SESSION_INFO && IdentityFrom(parseDate, frame.payload, 0).Some?
  }

  predicate NamesSession(parseDate: string -> Option<int>, frames: seq<LiveFrame>) {
    exists i :: 0 <= i < |frames| && Names(parseDate, frames[i])
  }

  /** On this day the feed's first frame that names a session names this one. */
  predicate NamesFirst(parseDate: string -> Option<int>, today: int, frames: seq<LiveFrame>, id: Identity) {
    exists i :: 0 <= i < |frames| && IsFirstName(parseDate, today, frames, id, i)
  }

  predicate IsFirstName(parseDate: string -> Option<int>, today: int, frames: seq<LiveFrame>, id: Identity, i: nat)
    requires i < |frames|
  {
    && frames[i].topic == SESSION_INFO && IdentityFrom(parseDate, frames[i].payload, today) == Some(id)
    && forall j :: 0 <= j < i ==> !Names(parseDate, frames[j])
  }

  /** An identity that a feed can have named. */
  predicate Nameable(id: Identity) { !IsBlank(id.event) && !IsBlank(id.key) }

  // ---------------------------------------------------------------- what the SessionInfo says

  /** The object has this field. */
  ghost predicate Has(fields: seq<Field>, key: string, v: Json) {
    exists i :: 0 <= i < |fields| && fields[i] == Field(key, v)
  }

  lemma {:induction false} GetFinds(fields: seq<Field>, key: string, v: Json)
    requires DistinctKeys(fields)
    ensures Get(fields, key) == Some(v) <==> Has(fields, key, v)
  {
    if fields != [] {
      var n := |fields| - 1;
      GetFinds(fields[..n], key, v);
      if i :| 0 <= i < |fields| && fields[i] == Field(key, v) {
        assert i < n ==> fields[..n][i] == Field(key, v);
      }
      if i :| 0 <= i < n && fields[..n][i] == Field(key, v) {
        assert fields[i] == Field(key, v);
      }
    }
  }

  /** The feed names the meeting. */
  ghost predicate MeetingNamed(payload: seq<Field>, event: string) {
    !IsBlank(event) && exists meeting :: Has(payload, "Meeting", Obj(meeting)) && Has(meeting, "Name", Text(event))
  }

  /** Nothing, zero, or empty. */
  ghost predicate NothingIn(v: Json) {
    v == Null || v == Bool(false) || v == Int(0) || v == Real(0.0) || v == Text("") || v == Arr([]) || v == Obj([])
  }

  /** The feed names the session, or at least its type when there is nothing in the place of a name. */
  ghost predicate SessionNamed(payload: seq<Field>, name: string) {
    && !IsBlank(name)
    && (|| (name != "" && Has(payload, "Name", Text(name)))
        || (Has(payload, "Type", Text(name)) && forall v :: Has(payload, "Name", v) ==> NothingIn(v)))
  }

  /** The session's day: the first ten characters of its start, if they are a date, else the day it is read. */
  ghost predicate DayOf(parseDate: string -> Option<int>, payload: seq<Field>, today: int, day: int) {
    if text :| Has(payload, "StartDate", Text(text)) && 10 <= |text| && parseDate(text[..10]).Some?
    then Some(day) == parseDate(text[..10])
    else day == today
  }

  lemma OnlyValue(fields: seq<Field>, key: string, v: Json, w: Json)
    requires DistinctKeys(fields) && Has(fields, key, v) && Has(fields, key, w)
    ensures v == w
  {
    GetFinds(fields, key, v);
    GetFinds(fields, key, w);
  }

  lemma MeetingName(payload: seq<Field>, event: string)
    requires WellFormed(Obj(payload))
    ensures MeetingNamed(payload, event) <==>
              && Get(payload, "Meeting").Some? && Get(payload, "Meeting").value.Obj?
              && Get(Get(payload, "Meeting").value.fields, "Name") == Some(Text(event)) && !IsBlank(event)
  {
    if Get(payload, "Meeting").Some? && Get(payload, "Meeting").value.Obj? {
      var meeting := Get(payload, "Meeting").value.fields;
      GetFinds(payload, "Meeting", Obj(meeting));
      GetFinds(meeting, "Name", Text(event));
    }
    if meeting :| Has(payload, "Meeting", Obj(meeting)) && Has(meeting, "Name", Text(event)) {
      GetFinds(payload, "Meeting", Obj(meeting));
      GetFinds(meeting, "Name", Text(event));
    }
  }

  lemma SessionName(payload: seq<Field>, name: string)
    requires DistinctKeys(payload)
    ensures SessionNamed(payload, name) <==>
              && (if Truthy(Get(payload, "Name")) then Get(payload, "Name") else Get(payload, "Type"))
                 == Some(Text(name))
              && !IsBlank(name)
  {
    GetFinds(payload, "Name", Text(name));
    GetFinds(payload, "Type", Text(name));
    forall v | Has(payload, "Name", v) ensures Get(payload, "Name") == Some(v) {
      GetFinds(payload, "Name", v);
    }
    assert forall v :: NothingIn(v) <==> !Truthy(Some(v));
    if Get(payload, "Name").Some? {
      GetFinds(payload, "Name", Get(payload, "Name").value);
    }
  }

  lemma SessionDay(parseDate: string -> Option<int>, payload: seq<Field>, today: int)
    requires DistinctKeys(payload)
    ensures DayOf(parseDate, payload, today, SessionDate(parseDate, Get(payload, "StartDate"), today))
  {
    forall v | Has(payload, "StartDate", v) ensures Get(payload, "StartDate") == Some(v) {
      GetFinds(payload, "StartDate", v);
    }
    if Get(payload, "StartDate").Some? {
      GetFinds(payload, "StartDate", Get(payload, "StartDate").value);
    }
  }

  /** Main result: a feed identifies its session exactly when it names both meeting and session, and by those names. */
  lemma IdentifiedExactlyWhen(parseDate: string -> Option<int>, payload: seq<Field>, today: int)
    requires WellFormed(Obj(payload))
    ensures var id := IdentityFrom(parseDate, payload, today);
            && (id.Some? <==>
                  && (exists event :: MeetingNamed(payload, event)) && (exists name :: SessionNamed(payload, name)))
            && (id.Some? ==>
                  && MeetingNamed(payload, id.value.event) && SessionNamed(payload, id.value.key)
                  && DayOf(parseDate, payload, today, id.value.date))
  {
    forall event ensures MeetingNamed(payload, event) <==>
              && Get(payload, "Meeting").Some? && Get(payload, "Meeting").value.Obj?
              && Get(Get(payload, "Meeting").value.fields, "Name") == Some(Text(event)) && !IsBlank(event)
    {
      MeetingName(payload, event);
    }
    forall name ensures SessionNamed(payload, name) <==>
              && (if Truthy(Get(payload, "Name")) then Get(payload, "Name") else Get(payload, "Type"))
                 == Some(Text(name))
              && !IsBlank(name)
    {
      SessionName(payload, name);
    }
    SessionDay(parseDate, payload, today);
  }
}
