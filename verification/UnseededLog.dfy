/**
 A log that was not read into the view: a collector that starts without knowing its session begins with an empty view,
 and may later find that the session's file already holds lines. Exactly which old lines do no harm.
 */
module UnseededLog {
  import opened Wrappers
  import opened LiveJson
  import opened MergeDelta
  import opened LogOrder
  import opened LiveFrames
  import opened CurrentView
  import opened SessionIdentity

  /** What an old meeting may hold without being seen through a frame that names the session. */
  predicate OnlyAName(meeting: Doc) {
    !meeting.DArr? && (meeting.DObj? ==> meeting.fields.Keys <= {"Name"})
  }

  /** Old state that any feed which names the session covers completely. */
  predicate LeavesNothing(leftover: Payloads) {
    && leftover.Keys <= {SESSION_INFO}
    && (SESSION_INFO in leftover ==>
          && leftover[SESSION_INFO].DObj?
          && leftover[SESSION_INFO].fields.Keys <= {"Meeting"}
          && ("Meeting" in leftover[SESSION_INFO].fields ==> OnlyAName(leftover[SESSION_INFO].fields["Meeting"])))
  }

  // ---------------------------------------------------------------- states that differ at most in the meeting's name

  /** Two mappings that agree on every key but one. */
  ghost predicate SameBut(a: map<string, Doc>, b: map<string, Doc>, hidden: string) {
    forall key {:trigger key in a} {:trigger key in b} :: key != hidden ==>
      (key in a <==> key in b) && (key in a ==> a[key] == b[key])
  }

  ghost predicate SameButName(a: Doc, b: Doc) {
    a.DObj? && b.DObj? && SameBut(a.fields, b.fields, "Name")
  }

  /** The meeting in the rebuilt session info against the one in the view. */
  ghost predicate MeetingsAgree(a: map<string, Doc>, b: map<string, Doc>) {
    || (("Meeting" in a <==> "Meeting" in b) && Lookup(a, "Meeting") == Lookup(b, "Meeting"))
    || ("Meeting" in a && "Meeting" !in b && OnlyAName(a["Meeting"]))
    || ("Meeting" in a && "Meeting" in b && SameButName(a["Meeting"], b["Meeting"]))
  }

  ghost predicate InfosAgree(a: map<string, Doc>, b: map<string, Doc>) {
    SameBut(a, b, "Meeting") && MeetingsAgree(a, b)
  }

  lemma {:induction false} MergeKeepsButName(a: map<string, Doc>, b: map<string, Doc>, fields: seq<Field>)
    requires SameBut(a, b, "Name")
    ensures SameBut(MergeFields(a, fields), MergeFields(b, fields), "Name")
  {
    if fields != [] {
      MergeKeepsButName(a, b, fields[..|fields| - 1]);
      SetKeepsBut(MergeFields(a, fields[..|fields| - 1]), MergeFields(b, fields[..|fields| - 1]), "Name",
                  fields[|fields| - 1]);
    }
  }

  /** One field written on both sides of two mappings that differ at most at `hidden`. */
  lemma SetKeepsBut(a: map<string, Doc>, b: map<string, Doc>, hidden: string, f: Field)
    requires SameBut(a, b, hidden)
    ensures SameBut(a[f.key := Merge(Lookup(a, f.key), f.value)], b[f.key := Merge(Lookup(b, f.key), f.value)], hidden)
  {
  }

  /** One delta to the meeting: it keeps the two sides equal up to the name, and equal where it sets the name. */
  lemma MeetingDelta(a: map<string, Doc>, b: map<string, Doc>, value: Json)
    requires MeetingsAgree(a, b)
    ensures var x, y := Merge(Lookup(a, "Meeting"), value), Merge(Lookup(b, "Meeting"), value);
            && (x == y || SameButName(x, y))
            && (value.Obj? && SetsName(value.fields) ==> x == y)
  {
    if value.Obj? && !(("Meeting" in a <==> "Meeting" in b) && Lookup(a, "Meeting") == Lookup(b, "Meeting")) {
      var x := if a["Meeting"].DObj? then a["Meeting"].fields else map[];
      var y := if "Meeting" in b then b["Meeting"].fields else map[];
      assert SameBut(x, y, "Name");
      MergeKeepsButName(x, y, value.fields);
      if SetsName(value.fields) {
        NameIsSet(x, y, value.fields);
      }
    }
  }

  predicate SetsName(fields: seq<Field>) {
    Get(fields, "Name").Some? && Get(fields, "Name").value.Text?
  }

  lemma {:induction false} NameIsSet(a: map<string, Doc>, b: map<string, Doc>, fields: seq<Field>)
    requires SameBut(a, b, "Name") && SetsName(fields)
    ensures MergeFields(a, fields) == MergeFields(b, fields)
  {
    var n := |fields| - 1;
    if fields[n].key == "Name" {
      MergeKeepsButName(a, b, fields[..n]);
      EqualOnceSet(MergeFields(a, fields[..n]), MergeFields(b, fields[..n]), "Name", Strip(fields[n].value));
    } else {
      NameIsSet(a, b, fields[..n]);
    }
  }

  lemma EqualOnceSet(a: map<string, Doc>, b: map<string, Doc>, hidden: string, d: Doc)
    requires SameBut(a, b, hidden)
    ensures a[hidden := d] == b[hidden := d]
  {
  }

  lemma InfoDelta(a: map<string, Doc>, b: map<string, Doc>, f: Field)
    requires InfosAgree(a, b)
    ensures var x, y := a[f.key := Merge(Lookup(a, f.key), f.value)], b[f.key := Merge(Lookup(b, f.key), f.value)];
            && InfosAgree(x, y)
            && (a == b ==> x == y)
            && (f.key == "Meeting" && f.value.Obj? && SetsName(f.value.fields) ==> x == y)
  {
    SetKeepsBut(a, b, "Meeting", f);
    if f.key == "Meeting" {
      MeetingDelta(a, b, f.value);
      if Merge(Lookup(a, f.key), f.value) == Merge(Lookup(b, f.key), f.value) {
        EqualOnceSet(a, b, "Meeting", Merge(Lookup(a, f.key), f.value));
      }
    }
  }

  predicate NamesMeeting(fields: seq<Field>) {
    var meeting := Get(fields, "Meeting");
    meeting.Some? && meeting.value.Obj? && SetsName(meeting.value.fields)
  }

  lemma {:induction false} InfoDeltas(a: map<string, Doc>, b: map<string, Doc>, fields: seq<Field>)
    requires InfosAgree(a, b)
    ensures InfosAgree(MergeFields(a, fields), MergeFields(b, fields))
    ensures a == b || NamesMeeting(fields) ==> MergeFields(a, fields) == MergeFields(b, fields)
  {
    if fields != [] {
      var n := |fields| - 1;
      InfoDeltas(a, b, fields[..n]);
      InfoDelta(MergeFields(a, fields[..n]), MergeFields(b, fields[..n]), fields[n]);
    }
  }

  // ---------------------------------------------------------------- old state fades

  /** The rebuilt payloads and the view differ at most in the session info, and there at most as far as agreed. */
  ghost predicate ViewsAgree(rebuilt: Payloads, view: Payloads) {
    && SameBut(rebuilt, view, SESSION_INFO)
    && (SESSION_INFO in view ==> SESSION_INFO in rebuilt && view[SESSION_INFO].DObj?)
    && (SESSION_INFO in rebuilt ==>
          && rebuilt[SESSION_INFO].DObj?
          && InfosAgree(rebuilt[SESSION_INFO].fields, if SESSION_INFO in view then view[SESSION_INFO].fields
                        else map[]))
  }

  lemma SetKeepsButInfo(a: Payloads, b: Payloads, topic: string, d: Doc, e: Doc)
    requires SameBut(a, b, SESSION_INFO) && (topic != SESSION_INFO ==> d == e)
    ensures SameBut(a[topic := d], b[topic := e], SESSION_INFO)
    ensures topic == SESSION_INFO && d == e ==> a[topic := d] == b[topic := e]
  {
    if topic == SESSION_INFO && d == e {
      EqualOnceSet(a, b, topic, d);
    }
  }

  lemma InfoFrame(rebuilt: Payloads, view: Payloads, frame: LiveFrame)
    requires ViewsAgree(rebuilt, view) && WellFormed(Obj(frame.payload)) && frame.topic == SESSION_INFO
    ensures var x, y := NextPayload(rebuilt, frame), NextPayload(view, frame);
            && x.DObj? && y.DObj? && InfosAgree(x.fields, y.fields)
            && (NamesMeeting(frame.payload) ==> x == y)
  {
    FreshFieldsAreStripped(frame.payload);
    if SESSION_INFO in rebuilt {
      var b := if SESSION_INFO in view then view[SESSION_INFO].fields else map[];
      InfoDeltas(rebuilt[SESSION_INFO].fields, b, frame.payload);
    }
  }

  lemma FrameKeepsAgreement(rebuilt: Payloads, view: Payloads, frame: LiveFrame)
    requires ViewsAgree(rebuilt, view) && WellFormed(Obj(frame.payload))
    ensures ViewsAgree(Step(rebuilt, frame), Step(view, frame))
    ensures rebuilt == view || (frame.topic == SESSION_INFO && NamesMeeting(frame.payload)) ==>
            Step(rebuilt, frame) == Step(view, frame)
  {
    if frame.topic == SESSION_INFO {
      InfoFrame(rebuilt, view, frame);
    } else {
      assert frame.topic in rebuilt <==> frame.topic in view;
    }
    SetKeepsButInfo(rebuilt, view, frame.topic, NextPayload(rebuilt, frame), NextPayload(view, frame));
  }

  lemma {:induction false} OldStateFades(parseDate: string -> Option<int>, leftover: Payloads, frames: seq<LiveFrame>)
    requires LeavesNothing(leftover) && AllWellFormed(frames)
    ensures ViewsAgree(Replay(leftover, frames), Replay(map[], frames))
    ensures NamesSession(parseDate, frames) ==> Replay(leftover, frames) == Replay(map[], frames)
  {
    if frames == [] {
      NothingLeftAgrees(leftover);
    } else {
      var n := |frames| - 1;
      OldStateFades(parseDate, leftover, frames[..n]);
      FrameKeepsAgreement(Replay(leftover, frames[..n]), Replay(map[], frames[..n]), frames[n]);
      if i :| 0 <= i < n && Names(parseDate, frames[i]) {
        assert frames[..n][i] == frames[i];
      }
    }
  }

  lemma NothingLeftAgrees(leftover: Payloads)
    requires LeavesNothing(leftover)
    ensures ViewsAgree(leftover, map[])
  {
  }

  // ---------------------------------------------------------------- when the log rebuilds the view

  /** The log that ends up holding `logged` and then every accepted frame, read back. */
  function Rebuilt(logged: seq<LiveFrame>, frames: seq<LiveFrame>): Payloads {
    Replay(map[], logged + LoggedAll(AcceptedBy(map[], frames)))
  }

  lemma RebuiltFrom(logged: seq<LiveFrame>, frames: seq<LiveFrame>)
    requires AllSortSafe(frames)
    ensures Rebuilt(logged, frames) == Replay(Replay(map[], logged), AcceptedBy(map[], frames))
  {
    var accepted := AcceptedBy(map[], frames);
    ReplayJoin(map[], logged, LoggedAll(accepted));
    AcceptedAreFrames(map[], frames);
    forall i | 0 <= i < |accepted| ensures SortSafe(Obj(accepted[i].payload)) {
      assert accepted[i] in frames;
    }
    LoggedReplay(Replay(map[], logged), accepted);
  }

  /** Old lines that leave nothing do no harm to any feed with an accepted frame that names the session. */
  lemma LeftoverIsCovered(parseDate: string -> Option<int>, logged: seq<LiveFrame>, frames: seq<LiveFrame>)
    requires LeavesNothing(Replay(map[], logged)) && AllSortSafe(frames)
    requires NamesSession(parseDate, AcceptedBy(map[], frames))
    ensures Rebuilt(logged, frames) == Replay(map[], frames)
  {
    var accepted := AcceptedBy(map[], frames);
    RebuiltFrom(logged, frames);
    AcceptedAreFrames(map[], frames);
    forall i | 0 <= i < |accepted| ensures WellFormed(Obj(accepted[i].payload)) {
      assert accepted[i] in frames;
      SortSafeIsWellFormed(Obj(accepted[i].payload));
    }
    OldStateFades(parseDate, Replay(map[], logged), accepted);
    AcceptedSuffice(map[], frames);
  }

  /**
   The file of session `id`, opened by an unseeded collector: for every feed that names `id`, it rebuilds the view.
   */
  ghost predicate RebuildsUnseeded(platform: Platform, parseDate: string -> Option<int>, id: Identity,
                                   logged: seq<LiveFrame>)
  {
    forall frames, today ::
      AllNormal(platform, frames) && AllSortSafe(frames) && NamesFirst(parseDate, today, AcceptedBy(map[], frames), id)
      ==> Rebuilt(logged, frames) == Replay(map[], frames)
  }

  /** The rules let a session be named at all. */
  predicate CanBeNamed(platform: Platform) {
    && platform.Consumes(SESSION_INFO)
    && !platform.Sensitive("Meeting") && !platform.Sensitive("Name") && !platform.Sensitive("Type")
  }

  // ---------------------------------------------------------------- old state that shows

  /** The least that names a session: a meeting's name, and the session's name or type. */
  function Naming(id: Identity, key: string): LiveFrame {
    LiveFrame(0, SESSION_INFO, false, None,
              [Field("Meeting", Obj([Field("Name", Text(id.event))])), Field(key, Text(id.key))])
  }

  lemma GetInPair(first: Field, second: Field)
    requires first.key != second.key
    ensures Get([first, second], first.key) == Some(first.value)
    ensures Get([first, second], second.key) == Some(second.value)
    ensures forall key :: key != first.key && key != second.key ==> Get([first, second], key) == None
  {
    var none: seq<Field> := [];
    assert [first, second][..1] == [first] && [first][..0] == none;
    forall key ensures Get([first], key) == if key == first.key then Some(first.value) else None {
      assert Get(none, key) == None;
    }
  }

  lemma GetOnly(f: Field)
    ensures Get([f], f.key) == Some(f.value)
  {
    var none: seq<Field> := [];
    assert [f][..0] == none;
  }

  /** On its own day the naming frame names exactly this session. */
  lemma NamingNames(parseDate: string -> Option<int>, id: Identity, key: string)
    requires Nameable(id) && (key == "Name" || key == "Type")
    ensures IdentityFrom(parseDate, Naming(id, key).payload, id.date) == Some(id)
  {
    var meeting := Field("Name", Text(id.event));
    GetOnly(meeting);
    GetInPair(Field("Meeting", Obj([meeting])), Field(key, Text(id.key)));
    assert "Meeting" != "StartDate" && "Name" != "StartDate" && "Type" != "StartDate";
  }

  lemma NamingIsNormal(platform: Platform, id: Identity, key: string)
    requires CanBeNamed(platform) && (key == "Name" || key == "Type")
    ensures NormalFrame(platform, Naming(id, key)) && SortSafe(Obj(Naming(id, key).payload))
  {
    var meeting := [Field("Name", Text(id.event))];
    assert KeyBefore("Meeting", key);
    assert NormalField(platform, meeting[0], 1);
    assert Normal(platform, Obj(meeting), 1);
  }

  lemma MergedPair(m: map<string, Doc>, first: Field, second: Field)
    requires first.key != second.key
    ensures MergeFields(m, [first, second])
            == m[first.key := Merge(Lookup(m, first.key), first.value)][second.key :=
                                                                        Merge(Lookup(m, second.key), second.value)]
  {
    var none: seq<Field> := [];
    assert [first, second][..1] == [first] && [first][..0] == none;
    assert MergeFields(m, [first]) == m[first.key := Merge(Lookup(m, first.key), first.value)];
  }

  lemma MergedName(m: map<string, Doc>, name: string)
    ensures MergeFields(m, [Field("Name", Text(name))]) == m["Name" := DText(name)]
  {
    assert [Field("Name", Text(name))][..0] == [];
  }

  /** What a view that held nothing says after the naming frame. */
  function NamedInfo(id: Identity, key: string): Doc {
    DObj(map["Meeting" := DObj(map["Name" := DText(id.event)]), key := DText(id.key)])
  }

  /** What a session info with these fields says after it. */
  function RenamedInfo(fields: map<string, Doc>, id: Identity, key: string): Doc {
    var meeting := Merge(Lookup(fields, "Meeting"), Obj([Field("Name", Text(id.event))]));
    DObj(fields["Meeting" := meeting][key := DText(id.key)])
  }

  /** What the naming frame makes of the view and of the old state. */
  lemma NamingApplied(fields: map<string, Doc>, id: Identity, key: string)
    requires key == "Name" || key == "Type"
    ensures Strip(Obj(Naming(id, key).payload)) == NamedInfo(id, key)
    ensures Merge(DObj(fields), Obj(Naming(id, key).payload)) == RenamedInfo(fields, id, key)
  {
    var first, second := Field("Meeting", Obj([Field("Name", Text(id.event))])), Field(key, Text(id.key));
    MergedPair(fields, first, second);
    MergedPair(map[], first, second);
    MergedName(map[], id.event);
    assert WellFormed(Obj([Field("Name", Text(id.event))]));
    FreshFieldsAreStripped(Naming(id, key).payload);
  }

  lemma {:induction false} ReplayGivesMappings(frames: seq<LiveFrame>)
    ensures forall topic :: topic in Replay(map[], frames) ==> Replay(map[], frames)[topic].DObj?
  {
    if frames != [] {
      ReplayGivesMappings(frames[..|frames| - 1]);
    }
  }

  /** Old state that does not leave nothing shows after some single naming frame. */
  lemma LeftoverShows(leftover: Payloads, id: Identity) returns (key: string)
    requires !LeavesNothing(leftover) && forall topic :: topic in leftover ==> leftover[topic].DObj?
    ensures key == "Name" || key == "Type"
    ensures Step(leftover, Naming(id, key)) != map[SESSION_INFO := Strip(Obj(Naming(id, key).payload))]
  {
    key := "Name";
    if topic :| topic in leftover && topic != SESSION_INFO {
      assert topic in Step(leftover, Naming(id, key));
      assert topic !in map[SESSION_INFO := Strip(Obj(Naming(id, key).payload))];
    } else {
      assert SESSION_INFO in leftover;
      var fields := leftover[SESSION_INFO].fields;
      if "Name" in fields {
        key := "Type";
      }
      NamingApplied(fields, id, key);
      LeftoverFieldShows(fields, id, key);
      assert Step(leftover, Naming(id, key))[SESSION_INFO] != Strip(Obj(Naming(id, key).payload));
    }
  }

  lemma LeftoverFieldShows(fields: map<string, Doc>, id: Identity, key: string)
    requires !(fields.Keys <= {"Meeting"} && ("Meeting" in fields ==> OnlyAName(fields["Meeting"])))
    requires key == if "Name" in fields then "Type" else "Name"
    ensures RenamedInfo(fields, id, key) != NamedInfo(id, key)
  {
    var shown, wanted := RenamedInfo(fields, id, key).fields, NamedInfo(id, key).fields;
    if k :| k in fields && k != "Meeting" && k != key {
      assert k in shown && k !in wanted;
    } else {
      assert fields.Keys <= {"Meeting"};
      var meeting := fields["Meeting"];
      if meeting.DObj? {
        MergedName(meeting.fields, id.event);
        var k :| k in meeting.fields && k != "Name";
        assert k in shown["Meeting"].fields && k !in wanted["Meeting"].fields;
      }
      assert shown["Meeting"] != wanted["Meeting"];
    }
  }

  lemma OneFrame(p: Payloads, frame: LiveFrame)
    ensures Replay(p, [frame]) == Step(p, frame) && (frame.topic !in p ==> AcceptedBy(p, [frame]) == [frame])
  {
    var none: seq<LiveFrame> := [];
    assert [frame][..0] == none;
    assert Replay(p, none) == p && AcceptedBy(p, none) == none;
  }

  /** A feed of a single frame, against any old lines. */
  lemma FeedOfOne(logged: seq<LiveFrame>, frame: LiveFrame)
    requires AllSortSafe([frame])
    ensures AcceptedBy(map[], [frame]) == [frame]
    ensures Rebuilt(logged, [frame]) == Step(Replay(map[], logged), frame)
    ensures Replay(map[], [frame]) == map[frame.topic := Strip(Obj(frame.payload))]
  {
    OneFrame(map[], frame);
    OneFrame(Replay(map[], logged), frame);
    RebuiltFrom(logged, [frame]);
  }

  lemma OnlyFrame(platform: Platform, parseDate: string -> Option<int>, today: int, frame: LiveFrame, id: Identity)
    requires frame.topic == SESSION_INFO && IdentityFrom(parseDate, frame.payload, today) == Some(id)
    requires NormalFrame(platform, frame) && SortSafe(Obj(frame.payload))
    ensures AllNormal(platform, [frame]) && AllSortSafe([frame]) && NamesFirst(parseDate, today, [frame], id)
  {
    assert IsFirstName(parseDate, today, [frame], id, 0);
  }

  /** A feed of one frame that names session `id`, over which other old lines of its file show. */
  lemma LeftoverBreaks(platform: Platform, parseDate: string -> Option<int>, id: Identity, logged: seq<LiveFrame>)
      returns (feed: seq<LiveFrame>)
    requires CanBeNamed(platform) && Nameable(id) && !LeavesNothing(Replay(map[], logged))
    ensures AllNormal(platform, feed) && AllSortSafe(feed)
    ensures NamesFirst(parseDate, id.date, AcceptedBy(map[], feed), id)
    ensures Rebuilt(logged, feed) != Replay(map[], feed)
  {
    ReplayGivesMappings(logged);
    var key := LeftoverShows(Replay(map[], logged), id);
    var frame := Naming(id, key);
    NamingNames(parseDate, id, key);
    NamingIsNormal(platform, id, key);
    OnlyFrame(platform, parseDate, id.date, frame, id);
    FeedOfOne(logged, frame);
    feed := [frame];
  }

  lemma FirstNameNames(parseDate: string -> Option<int>, today: int, frames: seq<LiveFrame>, id: Identity)
    requires NamesFirst(parseDate, today, frames, id)
    ensures NamesSession(parseDate, frames)
  {
    var i :| 0 <= i < |frames| && IsFirstName(parseDate, today, frames, id, i);
    assert Names(parseDate, frames[i]);
  }

  /**
   Main result: for the file of any one session, over every feed that names that session, a log that was not read into
   the view rebuilds it exactly when its old lines leave nothing, or nothing but a session info that holds at most the
   meeting's name.
   */
  lemma UnseededAgreesExactlyWhen(platform: Platform, parseDate: string -> Option<int>, id: Identity,
                                  logged: seq<LiveFrame>)
    requires CanBeNamed(platform) && Nameable(id)
    ensures RebuildsUnseeded(platform, parseDate, id, logged) <==> LeavesNothing(Replay(map[], logged))
  {
    if LeavesNothing(Replay(map[], logged)) {
      forall frames, today | AllSortSafe(frames) && NamesFirst(parseDate, today, AcceptedBy(map[], frames), id)
        ensures Rebuilt(logged, frames) == Replay(map[], frames)
      {
        FirstNameNames(parseDate, today, AcceptedBy(map[], frames), id);
        LeftoverIsCovered(parseDate, logged, frames);
      }
    } else {
      var feed := LeftoverBreaks(platform, parseDate, id, logged);
    }
  }

  /**
   A concrete failure: the file holds a weather report, the feed only names the session; the rebuilt view shows both.
   */
  lemma OldTopicComesBack(platform: Platform, parseDate: string -> Option<int>, id: Identity)
    requires CanBeNamed(platform) && Nameable(id)
    ensures var logged, feed := [LiveFrame(0, "WeatherData", true, None, [])], [Naming(id, "Name")];
            && AllNormal(platform, feed) && AllSortSafe(feed)
            && NamesFirst(parseDate, id.date, AcceptedBy(map[], feed), id)
            && "WeatherData" in Rebuilt(logged, feed) && "WeatherData" !in Replay(map[], feed)
  {
    var weather, frame := LiveFrame(0, "WeatherData", true, None, []), Naming(id, "Name");
    NamingNames(parseDate, id, "Name");
    NamingIsNormal(platform, id, "Name");
    OneFrame(map[], weather);
    OnlyFrame(platform, parseDate, id.date, frame, id);
    FeedOfOne([weather], frame);
  }

  /** And a harmless leftover: a session info without content is covered by every feed that names the session. */
  lemma EmptyInfoIsHarmless(platform: Platform, parseDate: string -> Option<int>, id: Identity)
    requires CanBeNamed(platform) && Nameable(id)
    ensures RebuildsUnseeded(platform, parseDate, id, [LiveFrame(0, SESSION_INFO, true, None, [])])
  {
    var info := LiveFrame(0, SESSION_INFO, true, None, []);
    OneFrame(map[], info);
    assert Strip(Obj(info.payload)) == DObj(map[]);
    UnseededAgreesExactlyWhen(platform, parseDate, id, [info]);
  }
}
