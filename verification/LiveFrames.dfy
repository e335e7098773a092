/** Normalisation of untrusted feed frames, and the log line a frame is written to and read back from. */
module LiveFrames {
  import opened Wrappers
  import opened LiveJson
  import opened MergeDelta
  import opened LogOrder

  const MAX_PAYLOAD_DEPTH := 24

  /** A value as the feed client or the JSON decoder hands it over, before validation. */
  datatype Raw =
    | RNull
    | RBool(b: bool)
    | RInt(i: int)
    | RReal(r: real)
    | RNonFinite
    | RText(text: string)
    | RBytes
    | RSeq(items: seq<Raw>)
    | RMap(fields: seq<RawField>)
    | ROther

  datatype RawKey = TextKey(text: string) | OtherKey(id: int)

  datatype RawField = RawField(key: RawKey, value: Raw)

  datatype RawFlag = Flag(value: bool) | NotAFlag

  datatype Moment = Aware(at: int) | Naive(at: int)

  datatype RawReceived = ReceivedAt(moment: Moment) | NotADatetime

  datatype RawStamp = Missing | Stamped(moment: Moment) | StampText(text: string) | StampOther

  datatype Rejection = UnknownTopic | IgnoredTopic | InvalidTimestamp | MalformedPayload | PayloadTooDeep

  /** An accepted frame; instants are microseconds, so the offset they were written with is gone. */
  datatype LiveFrame = LiveFrame(receivedAt: int, topic: string, initial: bool, feedTimestamp: Option<int>,
                                 payload: seq<Field>)

  /**
   The rules frames are read by: which topics count, which keys are sensitive, and what comes from the Python
   runtime, namely case folding and the ISO timestamp codec.
   */
  datatype Platform = Platform(
    consumedTopics: set<string>,
    ignoredTopics: set<string>,
    sensitiveFragments: seq<string>,
    fold: string -> string,
    parse: string -> Option<int>,
    format: int -> string)
  {
    /** The codec reads back what it wrote. */
    ghost predicate Exact() {
      forall at :: parse(format(at)) == Some(at) && !IsBlank(format(at))
    }

    predicate Sensitive(key: string) {
      exists i :: 0 <= i < |sensitiveFragments| && Contains(fold(key), sensitiveFragments[i])
    }

    predicate Consumes(topic: string) {
      topic != "" && topic !in ignoredTopics && topic in consumedTopics
    }
  }

  /** The rules of the live-timing feed. */
  function LiveTiming(fold: string -> string, parse: string -> Option<int>, format: int -> string): (r: Platform)
    ensures r.consumedTopics !! r.ignoredTopics && "" !in r.consumedTopics
    ensures forall topic :: topic in r.consumedTopics ==> r.Consumes(topic)
  {
    Platform(
      {"DriverList", "ExtrapolatedClock", "Heartbeat", "LapCount", "RaceControlMessages", "SessionData", "SessionInfo",
       "SessionStatus", "TeamRadio", "TimingAppData", "TimingData", "TimingStats", "TopThree", "TrackStatus",
         "WeatherData"},
      {"AudioStreams", "CarData.z", "ContentStreams", "Position.z"},
      ["apikey", "api_key", "authorization", "bearer", "cookie", "credential", "password", "secret", "token"],
      fold, parse, format)
  }

  predicate Contains(text: string, fragment: string) {
    exists i :: 0 <= i <= |text| - |fragment| && OccursAt(text, fragment, i)
  }

  predicate OccursAt(text: string, fragment: string, i: nat)
    requires i <= |text| - |fragment|
  {
    text[i..i + |fragment|] == fragment
  }

  predicate IsSpace(c: char) {
    var at := c as int;
    || 0x9 <= at <= 0xD || 0x1C <= at <= 0x20 || at == 0x85 || at == 0xA0 || at == 0x1680 || 0x2000 <= at <= 0x200A
    || at == 0x2028 || at == 0x2029 || at == 0x202F || at == 0x205F || at == 0x3000
  }

  predicate IsBlank(text: string) {
    forall i :: 0 <= i < |text| ==> IsSpace(text[i])
  }

  // ---------------------------------------------------------------- payload values

  /** A mapping has each key once; the values below may be anything. */
  predicate RawWellFormed(v: Raw) {
    match v
    case RSeq(items) => forall i :: 0 <= i < |items| ==> RawWellFormed(items[i])
    case RMap(fields) =>
      && (forall i, j :: 0 <= i < j < |fields| ==> fields[i].key != fields[j].key)
      && forall i :: 0 <= i < |fields| ==> RawWellFormed(fields[i].value)
    case _ => true
  }

  function NormalizeField(platform: Platform, f: RawField, depth: nat): Result<Field, Rejection>
    decreases f, 0
  {
    match f.key
    case OtherKey(_) => Err(MalformedPayload)
    case TextKey(key) =>
      if platform.Sensitive(key) then Ok(Field(key, Text(REDACTED)))
      else
        match NormalizeValue(platform, f.value, depth + 1)
        case Err(e) => Err(e)
        case Ok(value) => Ok(Field(key, value))
  }

  function NormalizeFields(platform: Platform, fields: seq<RawField>, depth: nat): Result<seq<Field>, Rejection>
    decreases fields, 0
  {
    if fields == [] then Ok([])
    else
      match NormalizeFields(platform, fields[..|fields| - 1], depth)
      case Err(e) => Err(e)
      case Ok(earlier) =>
        match NormalizeField(platform, fields[|fields| - 1], depth)
        case Err(e) => Err(e)
        case Ok(f) => Ok(earlier + [f])
  }

  function NormalizeItems(platform: Platform, items: seq<Raw>, depth: nat): Result<seq<Json>, Rejection>
    decreases items, 0
  {
    if items == [] then Ok([])
    else
      match NormalizeItems(platform, items[..|items| - 1], depth)
      case Err(e) => Err(e)
      case Ok(earlier) =>
        match NormalizeValue(platform, items[|items| - 1], depth)
        case Err(e) => Err(e)
        case Ok(value) => Ok(earlier + [value])
  }

  function NormalizeMapping(platform: Platform, fields: seq<RawField>, depth: nat): Result<seq<Field>, Rejection>
    decreases fields, 1
  {
    if MAX_PAYLOAD_DEPTH < depth then Err(PayloadTooDeep) else NormalizeFields(platform, fields, depth)
  }

  function NormalizeValue(platform: Platform, v: Raw, depth: nat): Result<Json, Rejection>
    decreases v, 2
  {
    if MAX_PAYLOAD_DEPTH < depth then Err(PayloadTooDeep)
    else
      match v
      case RNull => Ok(Null)
      case RBool(b) => Ok(Bool(b))
      case RInt(i) => Ok(Int(i))
      case RReal(r) => Ok(Real(r))
      case RText(text) => Ok(Text(text))
      case RMap(fields) =>
        (match NormalizeMapping(platform, fields, depth)
         case Err(e) => Err(e)
         case Ok(normalized) => Ok(Obj(normalized)))
      case RSeq(items) =>
        (match NormalizeItems(platform, items, depth + 1)
         case Err(e) => Err(e)
         case Ok(normalized) => Ok(Arr(normalized)))
      case _ => Err(MalformedPayload)
  }

  /** The loop that fills one mapping: it stops at the first key or value it rejects. */
  method FillMapping(platform: Platform, fields: seq<RawField>, depth: nat) returns (r: Result<seq<Field>, Rejection>)
    ensures r == NormalizeMapping(platform, fields, depth)
  {
    if MAX_PAYLOAD_DEPTH < depth {
      return Err(PayloadTooDeep);
    }
    var normalized: seq<Field> := [];
    for i := 0 to |fields|
      invariant NormalizeFields(platform, fields[..i], depth) == Ok(normalized)
    {
      assert fields[..i + 1][..i] == fields[..i];
      var step := NormalizeField(platform, fields[i], depth);
      if step.Err? {
        RejectionStops(platform, fields, i + 1, depth);
        return Err(step.error);
      }
      normalized := normalized + [step.value];
    }
    assert fields[..|fields|] == fields;
    r := Ok(normalized);
  }

  /** What is rejected after some fields is rejected for the same reason after more. */
  lemma {:induction false} RejectionStops(platform: Platform, fields: seq<RawField>, i: nat, depth: nat)
    requires i <= |fields| && NormalizeFields(platform, fields[..i], depth).Err?
    ensures NormalizeFields(platform, fields, depth) == NormalizeFields(platform, fields[..i], depth)
    decreases |fields|
  {
    if i == |fields| {
      assert fields[..i] == fields;
    } else {
      assert fields[..|fields| - 1][..i] == fields[..i];
      RejectionStops(platform, fields[..|fields| - 1], i, depth);
    }
  }

  // ---------------------------------------------------------------- frames

  function NormalizeStamp(platform: Platform, stamp: RawStamp): Result<Option<int>, Rejection> {
    match stamp
    case Missing => Ok(None)
    case Stamped(Aware(at)) => Ok(Some(at))
    case Stamped(Naive(_)) => Err(InvalidTimestamp)
    case StampOther => Err(InvalidTimestamp)
    case StampText(text) =>
      if IsBlank(text) then Ok(None)
      else
        match platform.parse(text)
        case None => Err(InvalidTimestamp)
        case Some(at) => Ok(Some(at))
  }

  function NormalizeFrame(platform: Platform, topic: Option<string>, payload: Raw, received: RawReceived,
                          initial: RawFlag,
                          stamp: RawStamp): Result<LiveFrame, Rejection>
  {
    if topic.None? || topic.value == "" then Err(UnknownTopic)
    else if topic.value in platform.ignoredTopics then Err(IgnoredTopic)
    else if topic.value !in platform.consumedTopics then Err(UnknownTopic)
    else if initial.NotAFlag? then Err(MalformedPayload)
    else if received.NotADatetime? || received.moment.Naive? then Err(InvalidTimestamp)
    else if !payload.RMap? then Err(MalformedPayload)
    else
      match NormalizeStamp(platform, stamp)
      case Err(e) => Err(e)
      case Ok(at) =>
        match NormalizeMapping(platform, payload.fields, 0)
        case Err(e) => Err(e)
        case Ok(fields) => Ok(LiveFrame(received.moment.at, topic.value, initial.value, at, fields))
  }

  // ---------------------------------------------------------------- what normalisation guarantees

  /** The shape of every value that normalisation lets through, at its depth in the payload. */
  predicate Normal(platform: Platform, v: Json, depth: nat) {
    && depth <= MAX_PAYLOAD_DEPTH
    && match v
       case Arr(items) => forall i :: 0 <= i < |items| ==> Normal(platform, items[i], depth + 1)
       case Obj(fields) => DistinctKeys(fields) && forall i :: 0 <= i < |fields| ==>
         NormalField(platform, fields[i], depth)
       case _ => true
  }

  predicate NormalField(platform: Platform, f: Field, depth: nat) {
    if platform.Sensitive(f.key) then f.value == Text(REDACTED) else Normal(platform, f.value, depth + 1)
  }

  predicate NormalFrame(platform: Platform, frame: LiveFrame) {
    platform.Consumes(frame.topic) && Normal(platform, Obj(frame.payload), 0)
  }

  lemma {:induction false} FieldsBecomeNormal(platform: Platform, fields: seq<RawField>, depth: nat)
    requires RawWellFormed(RMap(fields)) && NormalizeFields(platform, fields, depth).Ok?
    ensures var r := NormalizeFields(platform, fields, depth).value;
            && |r| == |fields| && DistinctKeys(r)
            && (forall i :: 0 <= i < |r| ==> fields[i].key == TextKey(r[i].key) && NormalField(platform, r[i], depth))
    decreases fields, 0
  {
    if fields != [] {
      var n := |fields| - 1;
      FieldsBecomeNormal(platform, fields[..n], depth);
      if !platform.Sensitive(fields[n].key.text) {
        ValueBecomesNormal(platform, fields[n].value, depth + 1);
      }
    }
  }

  lemma {:induction false} ItemsBecomeNormal(platform: Platform, items: seq<Raw>, depth: nat)
    requires (forall i :: 0 <= i < |items| ==> RawWellFormed(items[i])) && NormalizeItems(platform, items, depth).Ok?
    ensures forall v :: v in NormalizeItems(platform, items, depth).value ==> Normal(platform, v, depth)
    decreases items, 0
  {
    if items != [] {
      ItemsBecomeNormal(platform, items[..|items| - 1], depth);
      ValueBecomesNormal(platform, items[|items| - 1], depth);
    }
  }

  lemma {:induction false} ValueBecomesNormal(platform: Platform, v: Raw, depth: nat)
    requires RawWellFormed(v) && NormalizeValue(platform, v, depth).Ok?
    ensures Normal(platform, NormalizeValue(platform, v, depth).value, depth)
    decreases v, 1
  {
    match v
    case RMap(fields) => FieldsBecomeNormal(platform, fields, depth);
    case RSeq(items) => ItemsBecomeNormal(platform, items, depth + 1);
    case _ =>
  }

  /** Every accepted frame is on a consumed topic, is redacted, and nests at most 24 levels. */
  lemma FramesAreNormal(platform: Platform, topic: Option<string>, payload: Raw, received: RawReceived,
                        initial: RawFlag,
                        stamp: RawStamp)
    requires RawWellFormed(payload) && NormalizeFrame(platform, topic, payload, received, initial, stamp).Ok?
    ensures NormalFrame(platform, NormalizeFrame(platform, topic, payload, received, initial, stamp).value)
  {
    FieldsBecomeNormal(platform, payload.fields, 0);
  }

  // ---------------------------------------------------------------- what an accepted frame carries

  /** The value as it was sent, except that what stands under a sensitive key is hidden. */
  ghost predicate Keeps(platform: Platform, raw: Raw, v: Json)
    decreases raw
  {
    match raw
    case RNull => v == Null
    case RBool(b) => v == Bool(b)
    case RInt(i) => v == Int(i)
    case RReal(r) => v == Real(r)
    case RText(text) => v == Text(text)
    case RSeq(items) =>
      v.Arr? && |v.items| == |items| && forall i :: 0 <= i < |items| ==> Keeps(platform, items[i], v.items[i])
    case RMap(fields) =>
      && v.Obj? && |v.fields| == |fields|
      && forall i :: 0 <= i < |fields| ==>
           && fields[i].key == TextKey(v.fields[i].key)
           && (platform.Sensitive(v.fields[i].key) ==> v.fields[i].value == Text(REDACTED))
           && (!platform.Sensitive(v.fields[i].key) ==> Keeps(platform, fields[i].value, v.fields[i].value))
    case _ => false
  }

  /** The feed's own instant, when it gave one that names a time zone. */
  ghost predicate StampKeeps(platform: Platform, stamp: RawStamp, at: Option<int>) {
    match stamp
    case Missing => at == None
    case Stamped(moment) => moment.Aware? && at == Some(moment.at)
    case StampText(text) => if IsBlank(text) then at == None else at.Some? && platform.parse(text) == at
    case StampOther => false
  }

  lemma {:induction false} FieldIsKept(platform: Platform, f: RawField, depth: nat)
    requires NormalizeField(platform, f, depth).Ok? && !platform.Sensitive(f.key.text)
    ensures Keeps(platform, f.value, NormalizeField(platform, f, depth).value.value)
    decreases f, 0
  {
    ValueIsKept(platform, f.value, depth + 1);
  }

  lemma {:induction false} FieldsAreKept(platform: Platform, fields: seq<RawField>, depth: nat)
    requires NormalizeFields(platform, fields, depth).Ok?
    ensures Keeps(platform, RMap(fields), Obj(NormalizeFields(platform, fields, depth).value))
    decreases fields, 0
  {
    if fields != [] {
      var n := |fields| - 1;
      FieldsAreKept(platform, fields[..n], depth);
      if !platform.Sensitive(fields[n].key.text) {
        FieldIsKept(platform, fields[n], depth);
      }
    }
  }

  lemma {:induction false} ItemsAreKept(platform: Platform, items: seq<Raw>, depth: nat)
    requires NormalizeItems(platform, items, depth).Ok?
    ensures Keeps(platform, RSeq(items), Arr(NormalizeItems(platform, items, depth).value))
    decreases items, 0
  {
    if items != [] {
      ItemsAreKept(platform, items[..|items| - 1], depth);
      ValueIsKept(platform, items[|items| - 1], depth);
    }
  }

  lemma {:induction false} ValueIsKept(platform: Platform, v: Raw, depth: nat)
    requires NormalizeValue(platform, v, depth).Ok?
    ensures Keeps(platform, v, NormalizeValue(platform, v, depth).value)
    decreases v, 1
  {
    match v
    case RMap(fields) => FieldsAreKept(platform, fields, depth);
    case RSeq(items) => ItemsAreKept(platform, items, depth + 1);
    case _ =>
  }

  /** Main result: an accepted frame carries what was sent, part by part, except what is sensitive. */
  lemma FrameCarriesWhatWasSent(platform: Platform, topic: Option<string>, payload: Raw, received: RawReceived,
                                initial: RawFlag, stamp: RawStamp)
    ensures var r := NormalizeFrame(platform, topic, payload, received, initial, stamp);
            r.Ok? ==>
              && topic == Some(r.value.topic) && initial == Flag(r.value.initial)
              && received == ReceivedAt(Aware(r.value.receivedAt))
              && StampKeeps(platform, stamp, r.value.feedTimestamp)
              && Keeps(platform, payload, Obj(r.value.payload))
  {
    if NormalizeFrame(platform, topic, payload, received, initial, stamp).Ok? {
      FieldsAreKept(platform, payload.fields, 0);
    }
  }

  // ---------------------------------------------------------------- why a frame is rejected

  /** Somewhere in sight the value nests deeper than a frame may. */
  ghost predicate TooDeep(platform: Platform, v: Raw, depth: nat)
    decreases v
  {
    || MAX_PAYLOAD_DEPTH < depth
    || (v.RSeq? && exists i :: 0 <= i < |v.items| && TooDeep(platform, v.items[i], depth + 1))
    || (v.RMap? && exists i :: 0 <= i < |v.fields| && InSight(platform, v.fields[i])
                    && TooDeep(platform, v.fields[i].value, depth + 1))
  }

  /** Somewhere in sight stands something that JSON has no word for. */
  ghost predicate Malformed(v: Raw, platform: Platform)
    decreases v
  {
    || v.RNonFinite? || v.RBytes? || v.ROther?
    || (v.RSeq? && exists i :: 0 <= i < |v.items| && Malformed(v.items[i], platform))
    || (v.RMap? && exists i :: 0 <= i < |v.fields|
                    && (v.fields[i].key.OtherKey?
                        || (InSight(platform, v.fields[i]) && Malformed(v.fields[i].value, platform))))
  }

  /** A field whose value is looked at: its key is text and not sensitive. */
  ghost predicate InSight(platform: Platform, f: RawField) {
    f.key.TextKey? && !platform.Sensitive(f.key.text)
  }

  /** A payload is only ever rejected as too deep or as malformed. */
  ghost predicate PayloadReason(platform: Platform, v: Raw, depth: nat, e: Rejection) {
    || (e == PayloadTooDeep && TooDeep(platform, v, depth))
    || (e == MalformedPayload && Malformed(v, platform))
  }

  lemma {:induction false} FieldReason(platform: Platform, f: RawField, depth: nat)
    requires NormalizeField(platform, f, depth).Err? && f.key.TextKey?
    ensures PayloadReason(platform, f.value, depth + 1, NormalizeField(platform, f, depth).error)
    decreases f, 0
  {
    ValueReason(platform, f.value, depth + 1);
  }

  lemma {:induction false} FieldsReason(platform: Platform, fields: seq<RawField>, depth: nat)
    requires NormalizeFields(platform, fields, depth).Err?
    ensures PayloadReason(platform, RMap(fields), depth, NormalizeFields(platform, fields, depth).error)
    decreases fields, 0
  {
    var n := |fields| - 1;
    if NormalizeFields(platform, fields[..n], depth).Err? {
      FieldsReason(platform, fields[..n], depth);
      MoreFieldsSameReason(platform, fields, n, depth, NormalizeFields(platform, fields[..n], depth).error);
    } else if fields[n].key.TextKey? {
      FieldReason(platform, fields[n], depth);
    }
  }

  lemma MoreFieldsSameReason(platform: Platform, fields: seq<RawField>, n: nat, depth: nat, e: Rejection)
    requires n <= |fields| && PayloadReason(platform, RMap(fields[..n]), depth, e)
    ensures PayloadReason(platform, RMap(fields), depth, e)
  {
    var fewer := fields[..n];
    assert forall i :: 0 <= i < n ==> fewer[i] == fields[i];
  }

  lemma {:induction false} ItemsReason(platform: Platform, items: seq<Raw>, depth: nat)
    requires NormalizeItems(platform, items, depth + 1).Err?
    ensures PayloadReason(platform, RSeq(items), depth, NormalizeItems(platform, items, depth + 1).error)
    decreases items, 0
  {
    var n := |items| - 1;
    if NormalizeItems(platform, items[..n], depth + 1).Err? {
      ItemsReason(platform, items[..n], depth);
      assert forall i :: 0 <= i < n ==> items[..n][i] == items[i];
    } else {
      ValueReason(platform, items[n], depth + 1);
    }
  }

  lemma {:induction false} ValueReason(platform: Platform, v: Raw, depth: nat)
    requires NormalizeValue(platform, v, depth).Err?
    ensures PayloadReason(platform, v, depth, NormalizeValue(platform, v, depth).error)
    decreases v, 1
  {
    if depth <= MAX_PAYLOAD_DEPTH {
      match v
      case RMap(fields) => FieldsReason(platform, fields, depth);
      case RSeq(items) => ItemsReason(platform, items, depth);
      case _ =>
    }
  }

  /** The envelope is checked first, in this order, and the payload last. */
  ghost predicate RejectedFor(platform: Platform, topic: Option<string>, payload: Raw, received: RawReceived,
                              initial: RawFlag, stamp: RawStamp, e: Rejection) {
    if topic.None? || topic == Some("") then e == UnknownTopic
    else if topic.value in platform.ignoredTopics then e == IgnoredTopic
    else if topic.value !in platform.consumedTopics then e == UnknownTopic
    else if initial == NotAFlag then e == MalformedPayload
    else if !(received.ReceivedAt? && received.moment.Aware?) then e == InvalidTimestamp
    else if !payload.RMap? then e == MalformedPayload
    else if forall at :: !StampKeeps(platform, stamp, at) then e == InvalidTimestamp
    else PayloadReason(platform, payload, 0, e)
  }

  /** Main result: every rejection names the first thing that is wrong with the frame. */
  lemma FrameRejectedForItsReason(platform: Platform, topic: Option<string>, payload: Raw, received: RawReceived,
                                  initial: RawFlag, stamp: RawStamp)
    ensures var r := NormalizeFrame(platform, topic, payload, received, initial, stamp);
            r.Err? ==> RejectedFor(platform, topic, payload, received, initial, stamp, r.error)
  {
    var at := NormalizeStamp(platform, stamp);
    if at.Ok? {
      assert StampKeeps(platform, stamp, at.value);
    }
    if payload.RMap? && NormalizeMapping(platform, payload.fields, 0).Err? {
      FieldsReason(platform, payload.fields, 0);
    }
  }

  /** A fragment is contained exactly when it stands between two parts of the text. */
  lemma ContainedExactlyWhen(text: string, fragment: string)
    ensures Contains(text, fragment) <==> exists before, after: string :: text == before + fragment + after
  {
    if Contains(text, fragment) {
      var i: nat :| i <= |text| - |fragment| && OccursAt(text, fragment, i);
      assert text == text[..i] + fragment + text[i + |fragment|..];
    }
    if before: string, after: string :| text == before + fragment + after {
      assert OccursAt(text, fragment, |before|);
    }
  }

  // ---------------------------------------------------------------- normal values are bounded

  lemma {:induction false} NormalIsBounded(platform: Platform, v: Json, depth: nat)
    requires Normal(platform, v, depth)
    ensures WellFormed(v) && PatchDepthAtMost(v, MAX_PAYLOAD_DEPTH + 1 - depth) && RedactedPatch(platform.Sensitive, v)
  {
    match v
    case Arr(items) =>
      forall i | 0 <= i < |items|
        ensures WellFormed(items[i]) && PatchDepthAtMost(items[i], MAX_PAYLOAD_DEPTH - depth)
             && RedactedPatch(platform.Sensitive, items[i])
      {
        NormalIsBounded(platform, items[i], depth + 1);
      }
    case Obj(fields) =>
      forall i | 0 <= i < |fields|
        ensures WellFormed(fields[i].value) && PatchDepthAtMost(fields[i].value, MAX_PAYLOAD_DEPTH - depth)
             && RedactedField(platform.Sensitive, fields[i])
      {
        assert NormalField(platform, fields[i], depth);
        if !platform.Sensitive(fields[i].key) {
          NormalIsBounded(platform, fields[i].value, depth + 1);
        }
      }
    case _ =>
  }

  /**
   What may be accepted: finite JSON values under text keys, within the depth limit; below a sensitive key, anything.
   */
  predicate Acceptable(platform: Platform, v: Raw, depth: nat) {
    && depth <= MAX_PAYLOAD_DEPTH
    && match v
       case RSeq(items) => forall i :: 0 <= i < |items| ==> Acceptable(platform, items[i], depth + 1)
       case RMap(fields) => forall i :: 0 <= i < |fields| ==> AcceptableField(platform, fields[i], depth)
       case _ => !v.RNonFinite? && !v.RBytes? && !v.ROther?
  }

  predicate AcceptableField(platform: Platform, f: RawField, depth: nat) {
    f.key.TextKey? && (platform.Sensitive(f.key.text) || Acceptable(platform, f.value, depth + 1))
  }

  lemma {:induction false} FieldAcceptedExactlyWhen(platform: Platform, f: RawField, depth: nat)
    ensures NormalizeField(platform, f, depth).Ok? <==> AcceptableField(platform, f, depth)
    decreases f, 0
  {
    AcceptedExactlyWhen(platform, f.value, depth + 1);
  }

  lemma {:induction false} FieldsAcceptedExactlyWhen(platform: Platform, fields: seq<RawField>, depth: nat)
    ensures NormalizeFields(platform, fields, depth).Ok?
            <==> forall i :: 0 <= i < |fields| ==> AcceptableField(platform, fields[i], depth)
    decreases fields, 0
  {
    if fields != [] {
      var n := |fields| - 1;
      FieldsAcceptedExactlyWhen(platform, fields[..n], depth);
      FieldAcceptedExactlyWhen(platform, fields[n], depth);
      assert fields == fields[..n] + [fields[n]];
    }
  }

  lemma {:induction false} ItemsAcceptedExactlyWhen(platform: Platform, items: seq<Raw>, depth: nat)
    ensures NormalizeItems(platform, items, depth).Ok? <==> forall i :: 0 <= i < |items| ==>
            Acceptable(platform, items[i], depth)
    decreases items, 0
  {
    if items != [] {
      var n := |items| - 1;
      ItemsAcceptedExactlyWhen(platform, items[..n], depth);
      AcceptedExactlyWhen(platform, items[n], depth);
      assert items == items[..n] + [items[n]];
    }
  }

  /** A value is accepted exactly when nothing in it, outside what redaction hides, is malformed or too deep. */
  lemma {:induction false} AcceptedExactlyWhen(platform: Platform, v: Raw, depth: nat)
    ensures NormalizeValue(platform, v, depth).Ok? <==> Acceptable(platform, v, depth)
    decreases v, 1
  {
    match v
    case RMap(fields) => FieldsAcceptedExactlyWhen(platform, fields, depth);
    case RSeq(items) => ItemsAcceptedExactlyWhen(platform, items, depth + 1);
    case _ =>
  }

  /** A frame is accepted exactly when its topic is consumed, its envelope is sound and its payload is acceptable. */
  lemma FrameAcceptedExactlyWhen(platform: Platform, topic: Option<string>, payload: Raw, received: RawReceived,
                                 initial: RawFlag, stamp: RawStamp)
    ensures NormalizeFrame(platform, topic, payload, received, initial, stamp).Ok?
            <==> && topic.Some? && platform.Consumes(topic.value) && initial.Flag?
                 && received.ReceivedAt? && received.moment.Aware? && NormalizeStamp(platform, stamp).Ok?
                 && payload.RMap? && Acceptable(platform, payload, 0)
  {
    if payload.RMap? {
      FieldsAcceptedExactlyWhen(platform, payload.fields, 0);
    }
  }

  // ---------------------------------------------------------------- encoding and decoding a log line

  function ToRaw(v: Json): Raw {
    match v
    case Null => RNull
    case Bool(b) => RBool(b)
    case Int(i) => RInt(i)
    case Real(r) => RReal(r)
    case Text(text) => RText(text)
    case Arr(items) => RSeq(ToRawItems(items))
    case Obj(fields) => RMap(ToRawFields(fields))
  }

  function ToRawItems(items: seq<Json>): (r: seq<Raw>)
    ensures |r| == |items|
  {
    if items == [] then [] else ToRawItems(items[..|items| - 1]) + [ToRaw(items[|items| - 1])]
  }

  function ToRawFields(fields: seq<Field>): (r: seq<RawField>)
    ensures |r| == |fields|
  {
    if fields == [] then []
    else
      var last := fields[|fields| - 1];
      ToRawFields(fields[..|fields| - 1]) + [RawField(TextKey(last.key), ToRaw(last.value))]
  }

  /** What the JSON decoder makes of one line of the log. */
  datatype LogLine =
    | Blank
    | NotJson
    | NotAMapping
    | Entry(receivedAt: Option<string>, topic: Option<string>, initial: RawFlag, feedTimestamp: RawStamp, payload: Raw)

  function LoggedPayload(payload: seq<Field>): seq<Field> {
    SortFields(SortValues(payload))
  }

  /** The frame as it comes back from the log. */
  function Logged(frame: LiveFrame): LiveFrame {
    frame.(payload := LoggedPayload(frame.payload))
  }

  function EncodedStamp(platform: Platform, at: Option<int>): RawStamp {
    match at
    case None => Missing
    case Some(instant) => StampText(platform.format(instant))
  }

  function ToLogLine(platform: Platform, frame: LiveFrame): LogLine {
    Entry(Some(platform.format(frame.receivedAt)), Some(frame.topic), Flag(frame.initial),
          EncodedStamp(platform, frame.feedTimestamp), RMap(ToRawFields(LoggedPayload(frame.payload))))
  }

  function FromLogLine(platform: Platform, line: LogLine): Result<LiveFrame, Rejection> {
    match line
    case Entry(receivedAt, topic, initial, feedTimestamp, payload) =>
      if receivedAt.None? then Err(InvalidTimestamp)
      else
        (match platform.parse(receivedAt.value)
         case None => Err(InvalidTimestamp)
         case Some(at) => NormalizeFrame(platform, topic, payload, ReceivedAt(Aware(at)), initial, feedTimestamp))
    case _ => Err(MalformedPayload)
  }

  lemma {:induction false} NormalFieldsComeBack(platform: Platform, fields: seq<Field>, depth: nat)
    requires forall i :: 0 <= i < |fields| ==> NormalField(platform, fields[i], depth)
    ensures NormalizeFields(platform, ToRawFields(fields), depth) == Ok(fields)
    decreases fields, 0
  {
    if fields != [] {
      var n := |fields| - 1;
      NormalFieldsComeBack(platform, fields[..n], depth);
      assert NormalField(platform, fields[n], depth);
      assert ToRawFields(fields)[..n] == ToRawFields(fields[..n]);
      assert fields == fields[..n] + [fields[n]];
      if !platform.Sensitive(fields[n].key) {
        NormalComesBack(platform, fields[n].value, depth + 1);
      }
    }
  }

  lemma {:induction false} NormalItemsComeBack(platform: Platform, items: seq<Json>, depth: nat)
    requires forall i :: 0 <= i < |items| ==> Normal(platform, items[i], depth)
    ensures NormalizeItems(platform, ToRawItems(items), depth) == Ok(items)
    decreases items, 0
  {
    if items != [] {
      var n := |items| - 1;
      NormalItemsComeBack(platform, items[..n], depth);
      NormalComesBack(platform, items[n], depth);
      assert ToRawItems(items)[..n] == ToRawItems(items[..n]);
      assert items == items[..n] + [items[n]];
    }
  }

  /** Normalisation leaves what it has already normalised as it is. */
  lemma {:induction false} NormalComesBack(platform: Platform, v: Json, depth: nat)
    requires Normal(platform, v, depth)
    ensures NormalizeValue(platform, ToRaw(v), depth) == Ok(v)
    decreases v, 1
  {
    match v
    case Arr(items) => NormalItemsComeBack(platform, items, depth + 1);
    case Obj(fields) => NormalFieldsComeBack(platform, fields, depth);
    case _ =>
  }

  lemma {:induction false} SortingKeepsNormal(platform: Platform, v: Json, depth: nat)
    requires Normal(platform, v, depth)
    ensures Normal(platform, SortKeys(v), depth)
  {
    match v
    case Arr(items) =>
      forall i | 0 <= i < |items| ensures Normal(platform, SortItems(items)[i], depth + 1) {
        SortItemsAt(items, i);
        SortingKeepsNormal(platform, items[i], depth + 1);
      }
    case Obj(fields) =>
      var values := SortValues(fields);
      SortValuesKeepsKeys(fields);
      forall f | f in values ensures NormalField(platform, f, depth) {
        var i :| 0 <= i < |fields| && values[i] == f;
        assert NormalField(platform, fields[i], depth);
        if !platform.Sensitive(f.key) {
          SortingKeepsNormal(platform, fields[i].value, depth + 1);
        }
      }
      SortMembers(values);
      SortKeepsDistinct(values);
    case _ =>
  }

  lemma StampComesBack(platform: Platform, at: Option<int>)
    requires platform.Exact()
    ensures NormalizeStamp(platform, EncodedStamp(platform, at)) == Ok(at)
  {
    match at
    case None =>
    case Some(instant) => assert platform.parse(platform.format(instant)) == Some(instant);
  }

  lemma PayloadComesBack(platform: Platform, payload: seq<Field>)
    requires Normal(platform, Obj(payload), 0)
    ensures Normal(platform, Obj(LoggedPayload(payload)), 0)
    ensures NormalizeMapping(platform, ToRawFields(LoggedPayload(payload)), 0) == Ok(LoggedPayload(payload))
  {
    SortingKeepsNormal(platform, Obj(payload), 0);
    assert SortKeys(Obj(payload)) == Obj(LoggedPayload(payload));
    NormalFieldsComeBack(platform, LoggedPayload(payload), 0);
  }

  /** Round trip: decoding the line of an accepted frame gives the frame, with its objects in key order. */
  lemma LogRoundTrip(platform: Platform, frame: LiveFrame)
    requires platform.Exact() && NormalFrame(platform, frame)
    ensures FromLogLine(platform, ToLogLine(platform, frame)) == Ok(Logged(frame))
    ensures NormalFrame(platform, Logged(frame))
  {
    PayloadComesBack(platform, frame.payload);
    StampComesBack(platform, frame.feedTimestamp);
    assert platform.parse(platform.format(frame.receivedAt)) == Some(frame.receivedAt);
  }

  // ---------------------------------------------------------------- logging what was read back

  lemma {:induction false} OrderedStays(fields: seq<Field>)
    requires InKeyOrder(fields)
    ensures SortFields(fields) == fields
  {
    if fields != [] {
      OrderedStays(fields[..|fields| - 1]);
    }
  }

  lemma SortingFieldsTwice(fields: seq<Field>)
    requires forall i :: 0 <= i < |fields| ==> SortKeys(SortKeys(fields[i].value)) == SortKeys(fields[i].value)
    ensures LoggedPayload(LoggedPayload(fields)) == LoggedPayload(fields)
  {
    var values := SortValues(fields);
    var sorted := SortFields(values);
    SortValuesKeepsKeys(fields);
    SortMembers(values);
    SortAscends(values);
    SortValuesKeepsKeys(sorted);
    forall j | 0 <= j < |sorted| ensures SortValues(sorted)[j] == sorted[j] {
      assert sorted[j] in values;
      var i :| 0 <= i < |fields| && values[i] == sorted[j];
    }
    assert SortValues(sorted) == sorted;
    OrderedStays(sorted);
  }

  lemma {:induction false} SortingTwice(v: Json)
    ensures SortKeys(SortKeys(v)) == SortKeys(v)
  {
    match v
    case Arr(items) =>
      forall i | 0 <= i < |items| ensures SortItems(SortItems(items))[i] == SortItems(items)[i] {
        SortItemsAt(items, i);
        SortItemsAt(SortItems(items), i);
        SortingTwice(items[i]);
      }
      assert SortItems(SortItems(items)) == SortItems(items);
    case Obj(fields) =>
      forall i | 0 <= i < |fields| ensures SortKeys(SortKeys(fields[i].value)) == SortKeys(fields[i].value) {
        SortingTwice(fields[i].value);
      }
      SortingFieldsTwice(fields);
    case _ =>
  }

  /** A frame read back from the log is written to the very same line. */
  lemma LoggingIsStable(platform: Platform, frame: LiveFrame)
    ensures ToLogLine(platform, Logged(frame)) == ToLogLine(platform, frame)
  {
    SortingTwice(Obj(frame.payload));
  }
}
