/**
 The merged state of one live session: how frames are applied, why a log rebuilds it, and why replays are harmless.
 */
module CurrentView {
  import opened Wrappers
  import opened LiveJson
  import opened MergeDelta
  import opened LogOrder
  import opened PatchMeaning
  import opened LiveFrames

  /** What each topic currently says; the part of the view that the log must be able to rebuild. */
  type Payloads = map<string, Doc>

  /** An initial frame, or the first delta of a topic, replaces its state; any other delta is merged in. */
  function NextPayload(p: Payloads, frame: LiveFrame): Doc {
    if frame.initial || frame.topic !in p then Strip(Obj(frame.payload))
    else Merge(p[frame.topic], Obj(frame.payload))
  }

  function Step(p: Payloads, frame: LiveFrame): Payloads {
    p[frame.topic := NextPayload(p, frame)]
  }

  predicate Changes(p: Payloads, frame: LiveFrame) {
    frame.topic !in p || NextPayload(p, frame) != p[frame.topic]
  }

  function Replay(p: Payloads, frames: seq<LiveFrame>): Payloads {
    if frames == [] then p else Step(Replay(p, frames[..|frames| - 1]), frames[|frames| - 1])
  }

  /** The frames that changed something, in order. */
  function AcceptedBy(p: Payloads, frames: seq<LiveFrame>): seq<LiveFrame> {
    if frames == [] then []
    else
      var n := |frames| - 1;
      var earlier := AcceptedBy(p, frames[..n]);
      if Changes(Replay(p, frames[..n]), frames[n]) then earlier + [frames[n]] else earlier
  }

  function LoggedAll(frames: seq<LiveFrame>): (r: seq<LiveFrame>)
    ensures |r| == |frames|
  {
    if frames == [] then [] else LoggedAll(frames[..|frames| - 1]) + [Logged(frames[|frames| - 1])]
  }

  predicate AllSortSafe(frames: seq<LiveFrame>) {
    forall i :: 0 <= i < |frames| ==> SortSafe(Obj(frames[i].payload))
  }

  predicate AllNormal(platform: Platform, frames: seq<LiveFrame>) {
    forall i :: 0 <= i < |frames| ==> NormalFrame(platform, frames[i])
  }

  // ---------------------------------------------------------------- the log agrees with the view

  lemma {:induction false} ReplayJoin(p: Payloads, a: seq<LiveFrame>, b: seq<LiveFrame>)
    ensures Replay(p, a + b) == Replay(Replay(p, a), b)
  {
    if b == [] {
      assert a + b == a;
    } else {
      ReplayJoin(p, a, b[..|b| - 1]);
      assert (a + b)[..|a + b| - 1] == a + b[..|b| - 1];
    }
  }

  /** Leaving out the frames that changed nothing leads to the same state. */
  lemma {:induction false} AcceptedSuffice(p: Payloads, frames: seq<LiveFrame>)
    ensures Replay(p, AcceptedBy(p, frames)) == Replay(p, frames)
  {
    if frames != [] {
      var n := |frames| - 1;
      AcceptedSuffice(p, frames[..n]);
      var earlier := AcceptedBy(p, frames[..n]);
      if Changes(Replay(p, frames[..n]), frames[n]) {
        assert (earlier + [frames[n]])[..|earlier|] == earlier;
      } else {
        assert Step(Replay(p, frames[..n]), frames[n]) == Replay(p, frames[..n]);
      }
    }
  }

  lemma LoggedStep(p: Payloads, frame: LiveFrame)
    requires SortSafe(Obj(frame.payload))
    ensures Step(p, Logged(frame)) == Step(p, frame)
  {
    var patch := Obj(frame.payload);
    assert SortKeys(patch) == Obj(Logged(frame).payload);
    SortSafeIsWellFormed(patch);
    SortedStrip(patch);
    if frame.topic in p {
      SortedMerge(p[frame.topic], patch);
    }
  }

  lemma {:induction false} LoggedReplay(p: Payloads, frames: seq<LiveFrame>)
    requires AllSortSafe(frames)
    ensures Replay(p, LoggedAll(frames)) == Replay(p, frames)
  {
    if frames != [] {
      var n := |frames| - 1;
      LoggedReplay(p, frames[..n]);
      LoggedStep(Replay(p, frames[..n]), frames[n]);
      assert LoggedAll(frames)[..n] == LoggedAll(frames[..n]);
    }
  }

  lemma {:induction false} AcceptedAreFrames(p: Payloads, frames: seq<LiveFrame>)
    ensures forall f :: f in AcceptedBy(p, frames) ==> f in frames
  {
    if frames != [] {
      AcceptedAreFrames(p, frames[..|frames| - 1]);
    }
  }

  /**
   Main result: reading back a log that was seeded into the view and then received every accepted frame gives the
   view's own payloads, although unchanged frames were never logged and the log reordered every object.
   */
  lemma LogAgreesWithView(logged: seq<LiveFrame>, frames: seq<LiveFrame>)
    requires AllSortSafe(frames)
    ensures var seed := Replay(map[], logged);
            Replay(map[], logged + LoggedAll(AcceptedBy(seed, frames))) == Replay(seed, frames)
  {
    var seed := Replay(map[], logged);
    ReplayJoin(map[], logged, LoggedAll(AcceptedBy(seed, frames)));
    AcceptedAreFrames(seed, frames);
    forall i | 0 <= i < |AcceptedBy(seed, frames)| ensures SortSafe(Obj(AcceptedBy(seed, frames)[i].payload)) {
      assert AcceptedBy(seed, frames)[i] in frames;
    }
    LoggedReplay(seed, AcceptedBy(seed, frames));
    AcceptedSuffice(seed, frames);
  }

  // ---------------------------------------------------------------- replays are harmless

  lemma {:induction false} FreshMergeIsStrip(v: Json)
    requires WellFormed(v)
    ensures Merge(DNull, v) == Strip(v)
    decreases v, 1
  {
    if v.Obj? {
      FreshFieldsAreStripped(v.fields);
    }
  }

  lemma {:induction false} FreshFieldsAreStripped(fields: seq<Field>)
    requires DistinctKeys(fields) && forall i :: 0 <= i < |fields| ==> WellFormed(fields[i].value)
    ensures MergeFields(map[], fields) == StripFields(fields)
    decreases fields, 0
  {
    if fields != [] {
      var n := |fields| - 1;
      FreshFieldsAreStripped(fields[..n]);
      MergeFieldsKeys(map[], fields[..n], fields[n].key);
      FreshMergeIsStrip(fields[n].value);
    }
  }

  function TopicFrames(frames: seq<LiveFrame>, topic: string): seq<LiveFrame> {
    if frames == [] then []
    else
      var n := |frames| - 1;
      var earlier := TopicFrames(frames[..n], topic);
      if frames[n].topic == topic then earlier + [frames[n]] else earlier
  }

  /** One topic's frames applied to what the topic says, null while it says nothing. */
  function TopicReplay(d: Doc, frames: seq<LiveFrame>): Doc {
    if frames == [] then d
    else
      var n := |frames| - 1;
      if frames[n].initial then Strip(Obj(frames[n].payload))
      else Merge(TopicReplay(d, frames[..n]), Obj(frames[n].payload))
  }

  predicate AllWellFormed(frames: seq<LiveFrame>) {
    forall i :: 0 <= i < |frames| ==> WellFormed(Obj(frames[i].payload))
  }

  lemma TopicOneMore(d: Doc, frames: seq<LiveFrame>, frame: LiveFrame)
    ensures TopicReplay(d, frames + [frame])
            == if frame.initial then Strip(Obj(frame.payload)) else Merge(TopicReplay(d, frames), Obj(frame.payload))
  {
    assert (frames + [frame])[..|frames|] == frames;
  }

  lemma {:induction false} ReplayAt(p: Payloads, frames: seq<LiveFrame>, topic: string)
    requires AllWellFormed(frames)
    ensures topic in Replay(p, frames) <==> topic in p || TopicFrames(frames, topic) != []
    ensures Lookup(Replay(p, frames), topic) == TopicReplay(Lookup(p, topic), TopicFrames(frames, topic))
  {
    if frames != [] {
      var n := |frames| - 1;
      ReplayAt(p, frames[..n], topic);
      TopicOneMore(Lookup(p, topic), TopicFrames(frames[..n], topic), frames[n]);
      FreshMergeIsStrip(Obj(frames[n].payload));
    }
  }

  function PayloadsOf(frames: seq<LiveFrame>): (r: seq<Json>)
    ensures |r| == |frames|
  {
    if frames == [] then [] else PayloadsOf(frames[..|frames| - 1]) + [Obj(frames[|frames| - 1].payload)]
  }

  lemma {:induction false} DeltasMerge(d: Doc, frames: seq<LiveFrame>)
    requires forall i :: 0 <= i < |frames| ==> !frames[i].initial
    ensures TopicReplay(d, frames) == MergeAll(d, PayloadsOf(frames))
  {
    if frames != [] {
      var n := |frames| - 1;
      DeltasMerge(d, frames[..n]);
      MergeOneMore(d, PayloadsOf(frames[..n]), Obj(frames[n].payload));
    }
  }

  lemma {:induction false} InitialResets(d: Doc, e: Doc, frames: seq<LiveFrame>, j: nat)
    requires j < |frames| && frames[j].initial
    ensures TopicReplay(d, frames) == TopicReplay(e, frames)
  {
    if !frames[|frames| - 1].initial {
      InitialResets(d, e, frames[..|frames| - 1], j);
    }
  }

  lemma TopicReplayTwice(d: Doc, frames: seq<LiveFrame>)
    ensures TopicReplay(TopicReplay(d, frames), frames) == TopicReplay(d, frames)
  {
    if j :| 0 <= j < |frames| && frames[j].initial {
      InitialResets(TopicReplay(d, frames), d, frames, j);
    } else {
      DeltasMerge(d, frames);
      DeltasMerge(TopicReplay(d, frames), frames);
      ReplayBlock(d, PayloadsOf(frames));
    }
  }

  /** Main result: a reconnect that replays any run of frames, snapshots and deltas alike, leaves the view as it was. */
  lemma ReconnectReplayIsHarmless(p: Payloads, frames: seq<LiveFrame>)
    requires AllWellFormed(frames)
    ensures Replay(Replay(p, frames), frames) == Replay(p, frames)
  {
    var once := Replay(p, frames);
    forall topic ensures (topic in Replay(once, frames) <==> topic in once)
                      && Lookup(Replay(once, frames), topic) == Lookup(once, topic)
    {
      ReplayAt(p, frames, topic);
      ReplayAt(once, frames, topic);
      TopicReplayTwice(Lookup(p, topic), TopicFrames(frames, topic));
    }
    SameMapping(Replay(once, frames), once);
  }

  /** A frame that is sent again right away reports no change. */
  lemma ResentFrameChangesNothing(p: Payloads, frame: LiveFrame)
    requires WellFormed(Obj(frame.payload))
    ensures !Changes(Step(p, frame), frame)
  {
    ReconnectReplayIsHarmless(p, [frame]);
    assert [frame][..0] == [];
    assert Replay(p, [frame]) == Step(p, frame);
    assert Replay(Step(p, frame), [frame]) == Step(Step(p, frame), frame);
    assert Step(Step(p, frame), frame)[frame.topic] == Step(p, frame)[frame.topic];
  }

  // ---------------------------------------------------------------- every reachable state is bounded and redacted

  predicate StateIsClean(platform: Platform, p: Payloads) {
    forall topic :: topic in p ==>
      p[topic].DObj? && DepthAtMost(p[topic], MAX_PAYLOAD_DEPTH + 1) && Redacted(platform.Sensitive, p[topic])
  }

  /** Whatever the feed sends, no topic ever nests deeper than one frame may, or shows a sensitive value. */
  lemma {:induction false} ReachableStateIsClean(platform: Platform, p: Payloads, frames: seq<LiveFrame>)
    requires StateIsClean(platform, p) && AllNormal(platform, frames)
    ensures StateIsClean(platform, Replay(p, frames))
  {
    if frames != [] {
      var n := |frames| - 1;
      var before, patch := Replay(p, frames[..n]), Obj(frames[n].payload);
      ReachableStateIsClean(platform, p, frames[..n]);
      NormalIsBounded(platform, patch, 0);
      StripKeepsDepth(patch, MAX_PAYLOAD_DEPTH + 1);
      StripKeepsRedaction(platform.Sensitive, patch);
      if frames[n].topic in before {
        MergeKeepsDepth(before[frames[n].topic], patch, MAX_PAYLOAD_DEPTH + 1);
        MergeKeepsRedaction(platform.Sensitive, before[frames[n].topic], patch);
      }
    }
  }

  function WeightOf(frames: seq<LiveFrame>): nat {
    if frames == [] then 0 else WeightOf(frames[..|frames| - 1]) + Weight(Obj(frames[|frames| - 1].payload))
  }

  /** A topic never holds more nodes than it started with and was sent. */
  lemma {:induction false} TopicGrowth(d: Doc, frames: seq<LiveFrame>)
    ensures Size(TopicReplay(d, frames)) <= Size(d) + WeightOf(frames)
  {
    if frames != [] {
      var n := |frames| - 1;
      TopicGrowth(d, frames[..n]);
      StripKeepsSize(Obj(frames[n].payload));
      MergeGrowth(TopicReplay(d, frames[..n]), Obj(frames[n].payload));
    }
  }

  /** No topic can be made to hold more than it held and was sent. */
  lemma ViewGrowth(p: Payloads, frames: seq<LiveFrame>, topic: string)
    requires AllWellFormed(frames)
    ensures Size(Lookup(Replay(p, frames), topic)) <= Size(Lookup(p, topic)) + WeightOf(TopicFrames(frames, topic))
  {
    ReplayAt(p, frames, topic);
    TopicGrowth(Lookup(p, topic), TopicFrames(frames, topic));
  }

  // ---------------------------------------------------------------- the view

  datatype TopicState = TopicState(
    receivedAt: int, feedTimestamp: Option<int>, payload: Doc, snapshots: nat, updates: nat)

  /** The bookkeeping columns: a full state starts the count of updates again, a delta adds one. */
  ghost predicate Booked(was: map<string, TopicState>, frame: LiveFrame, state: TopicState) {
    var snapshots := if frame.topic in was then was[frame.topic].snapshots else 0;
    && state.receivedAt == frame.receivedAt && state.feedTimestamp == frame.feedTimestamp
    && state.snapshots == (if frame.initial then snapshots + 1 else snapshots)
    && state.updates == if frame.initial || frame.topic !in was then 0 else was[frame.topic].updates + 1
  }

  lemma ShownByStrip(d: Doc, v: Json)
    requires d == Strip(v)
    ensures WellFormed(v) ==> Shows(d, v)
  {
    if WellFormed(v) {
      ShownExactlyByStrip(d, v);
    }
  }

  class LiveCurrentView {
    var topics: map<string, TopicState>
    var applied: nat
    var unchangedFrames: nat

    constructor ()
      ensures Valid() && topics == map[] && Payloads() == map[] && applied == 0 && unchangedFrames == 0
    {
      topics, applied, unchangedFrames := map[], 0, 0;
    }

    ghost predicate Valid()
      reads this
    {
      forall topic :: topic in topics ==> topics[topic].payload.DObj?
    }

    function Payloads(): Payloads
      reads this
    {
      map topic | topic in topics :: topics[topic].payload
    }

    /** The topic's bookkeeping after a frame that replaces, or merges into, its state. */
    function Updated(frame: LiveFrame): TopicState
      reads this
    {
      var payload := NextPayload(Payloads(), frame);
      if frame.initial || frame.topic !in topics then
        TopicState(frame.receivedAt, frame.feedTimestamp, payload,
                   (if frame.topic in topics then topics[frame.topic].snapshots else 0)
                     + (if frame.initial then 1 else 0), 0)
      else
        TopicState(frame.receivedAt, frame.feedTimestamp, payload,
                   topics[frame.topic].snapshots, topics[frame.topic].updates + 1)
    }

    method Apply(frame: LiveFrame) returns (changed: bool)
      requires Valid()
      modifies this
      ensures Valid()
      ensures changed == Changes(old(Payloads()), frame)
      ensures Payloads() == Step(old(Payloads()), frame)
      ensures topics == if changed || frame.initial then old(topics)[frame.topic := old(Updated(frame))]
              else old(topics)
      ensures frame.topic in topics
      ensures (frame.initial || frame.topic !in old(topics)) && WellFormed(Obj(frame.payload)) ==>
                Shows(topics[frame.topic].payload, Obj(frame.payload))
      ensures !frame.initial && frame.topic in old(topics) ==>
                Patched(old(topics)[frame.topic].payload, Obj(frame.payload), topics[frame.topic].payload)
      ensures changed <==>
                frame.topic !in old(topics) || topics[frame.topic].payload != old(topics)[frame.topic].payload
      ensures changed || frame.initial ==> Booked(old(topics), frame, topics[frame.topic])
      ensures applied == old(applied) + (if changed then 1 else 0)
      ensures unchangedFrames == old(unchangedFrames) + (if changed then 0 else 1)
    {
      ghost var before := Payloads();
      if frame.initial || frame.topic !in topics {
        var payload := Strip(Obj(frame.payload));
        ShownByStrip(payload, Obj(frame.payload));
        var seen := frame.topic in topics;
        var snapshots := if seen then topics[frame.topic].snapshots else 0;
        var unchanging := seen && topics[frame.topic].payload == payload;
        topics := topics[frame.topic :=
          TopicState(frame.receivedAt, frame.feedTimestamp, payload, snapshots + (if frame.initial then 1 else 0), 0)];
        assert Payloads() == before[frame.topic := payload];
        if unchanging {
          unchangedFrames := unchangedFrames + 1;
          return false;
        }
        applied := applied + 1;
        return true;
      }
      var existing := topics[frame.topic];
      MergePatches(existing.payload, Obj(frame.payload));
      var merged := Merge(existing.payload, Obj(frame.payload));
      if !merged.DObj? || merged == existing.payload {
        unchangedFrames := unchangedFrames + 1;
        assert Payloads() == before == Step(before, frame);
        return false;
      }
      topics := topics[frame.topic :=
        TopicState(frame.receivedAt, frame.feedTimestamp, merged, existing.snapshots, existing.updates + 1)];
      assert Payloads() == before[frame.topic := merged];
      applied := applied + 1;
      return true;
    }

    method ApplyAll(frames: seq<LiveFrame>) returns (changed: nat)
      requires Valid()
      modifies this
      ensures Valid()
      ensures Payloads() == Replay(old(Payloads()), frames)
      ensures changed == |AcceptedBy(old(Payloads()), frames)|
      ensures applied == old(applied) + changed && unchangedFrames == old(unchangedFrames) + |frames| - changed
    {
      changed := 0;
      for i := 0 to |frames|
        invariant Valid() && Payloads() == Replay(old(Payloads()), frames[..i])
        invariant changed == |AcceptedBy(old(Payloads()), frames[..i])|
        invariant applied == old(applied) + changed && unchangedFrames == old(unchangedFrames) + i - changed
      {
        assert frames[..i + 1][..i] == frames[..i];
        var one := Apply(frames[i]);
        changed := changed + if one then 1 else 0;
      }
      assert frames[..|frames|] == frames;
    }
  }

  // ---------------------------------------------------------------- rebuilding from the log

  /** The frames a log yields: blank and rejected lines are skipped. */
  function FramesIn(platform: Platform, lines: seq<LogLine>): seq<LiveFrame> {
    if lines == [] then []
    else
      var earlier := FramesIn(platform, lines[..|lines| - 1]);
      match FromLogLine(platform, lines[|lines| - 1])
      case Ok(frame) => earlier + [frame]
      case Err(_) => earlier
  }

  function LinesFor(platform: Platform, frames: seq<LiveFrame>): (r: seq<LogLine>)
    ensures |r| == |frames|
  {
    if frames == [] then []
      else LinesFor(platform, frames[..|frames| - 1]) + [ToLogLine(platform, frames[|frames| - 1])]
  }

  lemma {:induction false} FramesInJoin(platform: Platform, a: seq<LogLine>, b: seq<LogLine>)
    ensures FramesIn(platform, a + b) == FramesIn(platform, a) + FramesIn(platform, b)
  {
    if b == [] {
      assert a + b == a;
    } else {
      FramesInJoin(platform, a, b[..|b| - 1]);
      assert (a + b)[..|a + b| - 1] == a + b[..|b| - 1];
    }
  }

  lemma LineComesBack(platform: Platform, lines: seq<LogLine>, frame: LiveFrame)
    requires platform.Exact() && NormalFrame(platform, frame)
    ensures FramesIn(platform, lines + [ToLogLine(platform, frame)]) == FramesIn(platform, lines) + [Logged(frame)]
  {
    LogRoundTrip(platform, frame);
    assert (lines + [ToLogLine(platform, frame)])[..|lines|] == lines;
  }

  lemma {:induction false} LinesComeBack(platform: Platform, frames: seq<LiveFrame>)
    requires platform.Exact() && AllNormal(platform, frames)
    ensures FramesIn(platform, LinesFor(platform, frames)) == LoggedAll(frames)
  {
    if frames != [] {
      LinesComeBack(platform, frames[..|frames| - 1]);
      LineComesBack(platform, LinesFor(platform, frames[..|frames| - 1]), frames[|frames| - 1]);
    }
  }

  method RebuildFromLog(platform: Platform, lines: seq<LogLine>) returns (view: LiveCurrentView)
    ensures fresh(view) && view.Valid()
    ensures view.Payloads() == Replay(map[], FramesIn(platform, lines))
  {
    view := new LiveCurrentView();
    for i := 0 to |lines|
      invariant fresh(view) && view.Valid()
      invariant view.Payloads() == Replay(map[], FramesIn(platform, lines[..i]))
    {
      assert lines[..i + 1][..i] == lines[..i];
      var decoded := FromLogLine(platform, lines[i]);
      if decoded.Ok? {
        ghost var earlier := FramesIn(platform, lines[..i]);
        assert (earlier + [decoded.value])[..|earlier|] == earlier;
        var changed := view.Apply(decoded.value);
      }
    }
    assert lines[..|lines|] == lines;
  }
}
