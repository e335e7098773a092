/** The append-only session log, the bounded subscriber queue, and the collector that feeds both. */
module LiveCollection {
  import opened Wrappers
  import opened LiveJson
  import opened MergeDelta
  import opened LogOrder
  import opened LiveFrames
  import opened CurrentView
  import opened SessionIdentity
  import opened UnseededLog
  import opened PitStops

  // ---------------------------------------------------------------- subsequences

  /** `a` is `b` with some elements left out, order kept. */
  predicate IsSubsequence<T(==)>(a: seq<T>, b: seq<T>) {
    if a == [] then true
    else if b == [] then false
    else
      var m, n := |a| - 1, |b| - 1;
      (a[m] == b[n] && IsSubsequence(a[..m], b[..n])) || IsSubsequence(a, b[..n])
  }

  lemma {:induction false} ShorterSubsequence<T>(a: seq<T>, b: seq<T>)
    requires a != [] && IsSubsequence(a, b)
    ensures IsSubsequence(a[..|a| - 1], b)
    decreases |b|
  {
    var m, n := |a| - 1, |b| - 1;
    if a[m] == b[n] && IsSubsequence(a[..m], b[..n]) {
    } else {
      ShorterSubsequence(a, b[..n]);
    }
  }

  lemma SubsequenceGrows<T>(a: seq<T>, b: seq<T>, x: T)
    requires IsSubsequence(a, b)
    ensures IsSubsequence(a + [x], b + [x]) && IsSubsequence(a, b + [x])
  {
    assert (a + [x])[..|a|] == a && (b + [x])[..|b|] == b;
  }

  lemma SplitAfter<T>(before: seq<T>, x: T, after: seq<T>)
    requires after != []
    ensures var whole, rest := before + [x] + after, after[..|after| - 1];
            && whole[..|whole| - 1] == before + [x] + rest && whole[|whole| - 1] == after[|after| - 1]
            && before + after == before + rest + [after[|after| - 1]]
  {
  }

  /** Leaving out one more element. */
  lemma {:induction false} SubsequenceWithout<T>(before: seq<T>, x: T, after: seq<T>, b: seq<T>)
    requires IsSubsequence(before + [x] + after, b)
    ensures IsSubsequence(before + after, b)
    decreases |b|
  {
    var whole := before + [x] + after;
    if after == [] {
      ShorterSubsequence(whole, b);
      assert whole[..|whole| - 1] == before + after;
    } else {
      var n, rest := |b| - 1, after[..|after| - 1];
      SplitAfter(before, x, after);
      assert b == b[..n] + [b[n]];
      if whole[|whole| - 1] == b[n] && IsSubsequence(whole[..|whole| - 1], b[..n]) {
        SubsequenceWithout(before, x, rest, b[..n]);
        SubsequenceGrows(before + rest, b[..n], b[n]);
      } else {
        SubsequenceWithout(before, x, after, b[..n]);
        SubsequenceGrows(before + after, b[..n], b[n]);
      }
    }
  }

  lemma {:induction false} FullSubsequence<T>(a: seq<T>, b: seq<T>)
    requires IsSubsequence(a, b)
    ensures |a| <= |b| && (|a| == |b| ==> a == b)
    decreases |b|
  {
    if a != [] {
      var m, n := |a| - 1, |b| - 1;
      if a[m] == b[n] && IsSubsequence(a[..m], b[..n]) {
        FullSubsequence(a[..m], b[..n]);
        assert a == a[..m] + [a[m]] && b == b[..n] + [b[n]];
      } else {
        FullSubsequence(a, b[..n]);
      }
    }
  }

  // ---------------------------------------------------------------- the session log

  function BytesOf(lineBytes: LogLine -> nat, lines: seq<LogLine>): nat {
    if lines == [] then 0 else BytesOf(lineBytes, lines[..|lines| - 1]) + lineBytes(lines[|lines| - 1])
  }

  class LiveSessionLog {
    const platform: Platform
    const maxBytes: nat
    /** The encoded length of a line, newline included. */
    const lineBytes: LogLine -> nat
    const found: seq<LogLine>
    var lines: seq<LogLine>
    var size: nat
    var degraded: bool

    /** The file never outgrows its cap, unless it already had when it was opened. */
    ghost predicate Valid()
      reads this
    {
      && size == BytesOf(lineBytes, lines)
      && found <= lines
      && (size <= maxBytes || lines == found)
    }

    constructor (platform: Platform, maxBytes: nat, lineBytes: LogLine -> nat, existing: seq<LogLine>)
      ensures Valid() && lines == existing && !degraded
      ensures this.platform == platform && this.maxBytes == maxBytes && this.lineBytes == lineBytes && found == existing
    {
      this.platform, this.maxBytes, this.lineBytes, this.found := platform, maxBytes, lineBytes, existing;
      lines, size, degraded := existing, BytesOf(lineBytes, existing), false;
    }

    method Append(frame: LiveFrame) returns (written: bool)
      requires Valid()
      modifies this
      ensures Valid()
      ensures written <==> old(size) + lineBytes(ToLogLine(platform, frame)) <= maxBytes
      ensures lines == if written then old(lines) + [ToLogLine(platform, frame)] else old(lines)
      ensures degraded == (old(degraded) || !written)
    {
      var line := ToLogLine(platform, frame);
      var length := lineBytes(line);
      if size + length > maxBytes {
        degraded := true;
        return false;
      }
      assert (lines + [line])[..|lines|] == lines;
      lines := lines + [line];
      size := size + length;
      return true;
    }
  }

  // ---------------------------------------------------------------- subscriber queues

  datatype Update = Update(topic: string, initial: bool, receivedAt: int, payload: Doc)

  /** The newest updates that fit; a capacity of zero or less is no bound. */
  function Newest(updates: seq<Update>, capacity: int): seq<Update> {
    if 0 < capacity < |updates| then updates[|updates| - capacity..] else updates
  }

  lemma NewestGrows(offered: seq<Update>, capacity: int, update: Update)
    ensures Newest(Newest(offered, capacity) + [update], capacity) == Newest(offered + [update], capacity)
  {
  }

  predicate IsSuffix(items: seq<Update>, offered: seq<Update>) {
    |items| <= |offered| && items == offered[|offered| - |items|..]
  }

  lemma NewestIsSuffix(items: seq<Update>, offered: seq<Update>, capacity: int, update: Update)
    requires IsSuffix(items, offered)
    ensures IsSuffix(Newest(items + [update], capacity), offered + [update])
  {
  }

  /** Appending to a queue with room, or to a full one without its oldest entry, keeps the newest. */
  lemma NewestAfterRoom(was: seq<Update>, items: seq<Update>, capacity: int, update: Update)
    requires 0 < capacity ==> |was| <= capacity && |items| < capacity
    requires items == was || (|was| == capacity && capacity != 0 && items == was[1..])
    ensures items + [update] == Newest(was + [update], capacity)
  {
  }

  class UpdateQueue {
    const capacity: int
    var items: seq<Update>
    ghost var offered: seq<Update>
    ghost var drained: bool

    /** What is queued is the newest of what was offered, and all of the newest until a reader takes some. */
    ghost predicate Valid()
      reads this
    {
      && IsSuffix(items, offered)
      && (0 < capacity ==> |items| <= capacity)
      && (!drained ==> items == Newest(offered, capacity))
    }

    constructor (capacity: int)
      ensures Valid() && this.capacity == capacity && items == [] && offered == [] && !drained
    {
      this.capacity, items, offered, drained := capacity, [], [], false;
    }

    predicate Full()
      reads this
    {
      0 < capacity <= |items|
    }

    method Offer(update: Update)
      requires Valid()
      modifies this
      ensures Valid() && drained == old(drained)
      ensures offered == old(offered) + [update]
      ensures items == Newest(old(items) + [update], capacity)
    {
      while true
        invariant offered == old(offered) && drained == old(drained)
        invariant items == old(items) || (|old(items)| == capacity && capacity != 0 && items == old(items)[1..])
        decreases |items|
      {
        if !Full() {
          NewestAfterRoom(old(items), items, capacity, update);
          items := items + [update];
          offered := offered + [update];
          NewestIsSuffix(old(items), old(offered), capacity, update);
          NewestGrows(old(offered), capacity, update);
          return;
        }
        items := items[1..];
      }
    }

    /** A reader takes the oldest update. */
    method Take() returns (update: Update)
      requires Valid() && items != []
      modifies this
      ensures Valid() && offered == old(offered)
      ensures [update] + items == old(items)
    {
      drained := true;
      update := items[0];
      items := items[1..];
    }
  }

  // ---------------------------------------------------------------- the collector

  const MAX_PENDING_FRAMES := 512

  datatype RawFrame = RawFrame(topic: Option<string>, payload: Raw, initial: bool, timestamp: RawStamp)

  function CountOf(rejected: map<Rejection, nat>, reason: Rejection): nat {
    if reason in rejected then rejected[reason] else 0
  }

  function Rejections(rejected: map<Rejection, nat>): nat {
    CountOf(rejected, UnknownTopic) + CountOf(rejected, IgnoredTopic) + CountOf(rejected, InvalidTimestamp)
    + CountOf(rejected, MalformedPayload) + CountOf(rejected, PayloadTooDeep)
  }

  /**
   Every accepted frame is written, dropped, or still waits; what is written and waits is in the order of acceptance.
   */
  ghost predicate Placed(platform: Platform, written: seq<LiveFrame>, left: seq<LiveFrame>, dropped: nat,
                         all: seq<LiveFrame>) {
    && |all| == |written| + dropped + |left|
    && IsSubsequence(written + left, all)
    && AllNormal(platform, written + left)
  }

  lemma PlacedWrite(platform: Platform, written: seq<LiveFrame>, frame: LiveFrame, left: seq<LiveFrame>, dropped: nat,
                    all: seq<LiveFrame>)
    requires Placed(platform, written, [frame] + left, dropped, all)
    ensures Placed(platform, written + [frame], left, dropped, all)
  {
    assert written + ([frame] + left) == written + [frame] + left;
  }

  lemma PlacedDrop(platform: Platform, written: seq<LiveFrame>, frame: LiveFrame, left: seq<LiveFrame>, dropped: nat,
                   all: seq<LiveFrame>)
    requires Placed(platform, written, [frame] + left, dropped, all)
    ensures Placed(platform, written, left, dropped + 1, all)
  {
    assert written + ([frame] + left) == written + [frame] + left;
    SubsequenceWithout(written, frame, left, all);
    AllNormalWithout(platform, written, frame, left);
  }

  lemma AllNormalWithout(platform: Platform, before: seq<LiveFrame>, frame: LiveFrame, after: seq<LiveFrame>)
    requires AllNormal(platform, before + [frame] + after)
    ensures AllNormal(platform, before + after)
  {
    var whole := before + [frame] + after;
    forall i | 0 <= i < |before + after| ensures NormalFrame(platform, (before + after)[i]) {
      assert (before + after)[i] == whole[if i < |before| then i else i + 1];
    }
  }

  lemma PlacedNext(platform: Platform, written: seq<LiveFrame>, left: seq<LiveFrame>, dropped: nat, all: seq<LiveFrame>,
                   frame: LiveFrame)
    requires Placed(platform, written, left, dropped, all) && NormalFrame(platform, frame)
    ensures Placed(platform, written, left + [frame], dropped, all + [frame])
    ensures Placed(platform, written, left, dropped + 1, all + [frame])
  {
    SubsequenceGrows(written + left, all, frame);
    assert written + (left + [frame]) == written + left + [frame];
  }

  lemma RejectionsGrow(rejected: map<Rejection, nat>, reason: Rejection)
    ensures Rejections(rejected[reason := CountOf(rejected, reason) + 1]) == Rejections(rejected) + 1
  {
    match reason
    case UnknownTopic =>
    case IgnoredTopic =>
    case InvalidTimestamp =>
    case MalformedPayload =>
    case PayloadTooDeep =>
  }

  // ---------------------------------------------------------------- pit stops of a live session

  const TIMING_DATA := "TimingData"

  /** The session's state as the view has it, empty while it is unknown. */
  function StatusIn(p: Payloads): string {
    if "SessionStatus" !in p || !p["SessionStatus"].DObj? then ""
    else
      match Lookup(p["SessionStatus"].fields, "Status")
      case DText(status) => status
      case _ => ""
  }

  /** What one accepted frame says: the session's state once it is applied, and the cars' flags in a timing frame. */
  function FrameReports(frame: LiveFrame, after: Payloads): seq<Report> {
    [Seen(StatusIn(after))]
    + if frame.topic != TIMING_DATA then []
      else ReportsIn(LinesOf(Obj(frame.payload)), frame.feedTimestamp.GetOr(frame.receivedAt), StatusIn(after),
                     frame.initial, map[])
  }

  /** The view says in which state the session is. */
  ghost predicate SaysStatus(p: Payloads, status: string) {
    && "SessionStatus" in p && p["SessionStatus"].DObj?
    && "Status" in p["SessionStatus"].fields && p["SessionStatus"].fields["Status"] == DText(status)
  }

  lemma StatusIsSaid(p: Payloads)
    ensures forall status :: SaysStatus(p, status) ==> StatusIn(p) == status
    ensures (forall status :: !SaysStatus(p, status)) ==> StatusIn(p) == ""
  {
    var status := StatusIn(p);
    if status != "" {
      assert SaysStatus(p, status);
    }
  }

  /**
   What a frame tells the tracker: the state of the session, and, if it is a timing frame, the cars of its lines by the
   feed's clock, or by its own arrival when the feed gave none.
   */
  lemma FrameTellsTheTracker(frame: LiveFrame, after: Payloads, r: Report)
    requires WellFormed(Obj(frame.payload))
    ensures var moment := if frame.feedTimestamp.Some? then frame.feedTimestamp.value else frame.receivedAt;
            r in FrameReports(frame, after) <==>
              || r == Seen(StatusIn(after))
              || (frame.topic == "TimingData"
                  && exists lines, i :: Has(frame.payload, "Lines", Obj(lines)) && 0 <= i < |lines|
                                        && Told(lines[i], moment, StatusIn(after), frame.initial, map[], r))
  {
    FlagsAreReported(Obj(frame.payload), frame.feedTimestamp.GetOr(frame.receivedAt), StatusIn(after), frame.initial,
                     map[], r);
  }

  /** Everything the accepted frames of a session report about the pit lane. */
  function PitReports(p: Payloads, frames: seq<LiveFrame>): seq<Report> {
    if frames == [] then []
    else
      var n := |frames| - 1;
      var before, earlier := Replay(p, frames[..n]), PitReports(p, frames[..n]);
      if Changes(before, frames[n]) then earlier + FrameReports(frames[n], Step(before, frames[n])) else earlier
  }

  lemma SeenThenReported(before: seq<Report>, status: string, reports: seq<Report>)
    ensures before + [Seen(status)] + reports == before + ([Seen(status)] + reports)
    ensures before + [Seen(status)] == before + ([Seen(status)] + [])
  {
  }

  lemma PitReportsGrow(p: Payloads, frames: seq<LiveFrame>, frame: LiveFrame)
    ensures PitReports(p, frames + [frame])
            == PitReports(p, frames)
               + if Changes(Replay(p, frames), frame) then FrameReports(frame, Step(Replay(p, frames), frame)) else []
  {
    assert (frames + [frame])[..|frames|] == frames;
  }

  lemma NamingStays(parseDate: string -> Option<int>, frames: seq<LiveFrame>, frame: LiveFrame)
    ensures NamesSession(parseDate, frames + [frame]) <==> NamesSession(parseDate, frames) || Names(parseDate, frame)
  {
    var more := frames + [frame];
    assert more[|frames|] == frame;
    if i :| 0 <= i < |frames| && Names(parseDate, frames[i]) {
      assert more[i] == frames[i];
    }
  }

  class LiveCollector {
    const platform: Platform
    const parseDate: string -> Option<int>
    const replay: bool
    const loggingEnabled: bool
    const maxBytes: nat
    const lineBytes: LogLine -> nat
    /** The lines a session's file already holds before this collector opens it. */
    const onDisk: Identity -> seq<LogLine>
    const given: Option<Identity>

    var identity: Option<Identity>
    var logPath: Option<Identity>
    var view: LiveCurrentView
    var log: LiveSessionLog?
    var pending: seq<LiveFrame>
    var accepted: nat
    var duplicates: nat
    var rejected: map<Rejection, nat>
    var dropped: nat
    var subscribers: set<UpdateQueue>
    const pits: PitStopTracker

    /** Ghost history: raw frames handled, frames that passed normalisation, and those that reached the log. */
    ghost var handled: nat
    ghost var history: seq<LiveFrame>
    ghost var written: seq<LiveFrame>

    ghost function Seed(): Payloads {
      if given.Some? then Replay(map[], FramesIn(platform, onDisk(given.value))) else map[]
    }

    ghost function Accepted(): seq<LiveFrame>
      reads this`history
    {
      AcceptedBy(Seed(), history)
    }

    ghost predicate ViewInv()
      reads this`view, this`history, view
    {
      && view.Valid()
      && view.Payloads() == Replay(Seed(), history)
      && AllNormal(platform, history)
    }

    /** Conservation of frames. */
    ghost predicate StatsInv()
      reads this`accepted, this`duplicates, this`history, this`handled, this`rejected
    {
      && accepted == |Accepted()|
      && accepted + duplicates == |history|
      && handled == accepted + duplicates + Rejections(rejected)
    }

    /** Where the accepted frames `all` have gone. */
    ghost predicate LogInv(all: seq<LiveFrame>)
      reads this`pending, this`written, this`dropped, this`log, this`logPath, this`identity, log
    {
      && |pending| <= MAX_PENDING_FRAMES
      && (replay ==> log == null && pending == [] && written == [] && dropped == 0)
      && (!replay ==> Placed(platform, written, pending, dropped, all))
      && (!replay && !loggingEnabled ==> log == null && written == [] && pending == [])
      && (!replay && loggingEnabled ==> logPath == identity)
      && (given.Some? ==> identity == given)
      && (identity.Some? && log == null ==> written == [] && (given.Some? ==> pending == []))
      && (identity.None? ==> log == null && written == [])
      && (log != null ==>
            && log.Valid() && pending == [] && identity.Some?
            && log.platform == platform && log.maxBytes == maxBytes && log.found == onDisk(identity.value)
            && log.lines == onDisk(identity.value) + LinesFor(platform, written))
    }

    /** A session that was not given was named by an accepted frame. */
    ghost predicate NamedBy(all: seq<LiveFrame>)
      reads this`identity
    {
      given.None? && identity.Some? ==> NamesSession(parseDate, all)
    }

    /** The pit-stop tracker has seen exactly the reports of the accepted timing frames. */
    ghost predicate PitInv(reports: seq<Report>)
      reads pits
    {
      pits.Valid() && pits.history == reports
    }

    /** What becomes of the accepted frames `all` and the pit reports in them: log, name, queues and tracker. */
    ghost predicate Filed(all: seq<LiveFrame>, reports: seq<Report>)
      reads this`pending, this`written, this`dropped, this`log, this`logPath, this`identity, this`subscribers
      reads log, subscribers, pits
    {
      LogInv(all) && NamedBy(all) && QueuesValid() && PitInv(reports)
    }

    ghost predicate Valid()
      reads this, view, log, subscribers, pits
    {
      ViewInv() && StatsInv() && Filed(Accepted(), Reports())
    }

    ghost function Reports(): seq<Report>
      reads this`history
    {
      PitReports(Seed(), history)
    }

    ghost predicate QueuesValid()
      reads this`subscribers, subscribers
    {
      forall q {:trigger q.Valid()} :: q in subscribers ==> q.Valid()
    }

    constructor (platform: Platform, parseDate: string -> Option<int>, given: Option<Identity>, replay: bool,
                 logging: bool,
                 maxBytes: nat, lineBytes: LogLine -> nat, onDisk: Identity -> seq<LogLine>)
      ensures Valid() && fresh(view) && fresh(pits) && log == null && subscribers == {} && history == [] && handled == 0
      ensures this.platform == platform && this.given == given && this.replay == replay && this.onDisk == onDisk
      ensures loggingEnabled == (logging && !replay)
    {
      this.platform, this.parseDate, this.replay, this.loggingEnabled := platform, parseDate, replay, logging
        && !replay;
      this.maxBytes, this.lineBytes, this.onDisk, this.given := maxBytes, lineBytes, onDisk, given;
      identity, logPath, log, pending := given, given, null, [];
      accepted, duplicates, rejected, dropped := 0, 0, map[], 0;
      subscribers, handled, history, written := {}, 0, [], [];
      var tracker := new PitStopTracker(IMPLAUSIBLE_VISIT);
      pits := tracker;
      var lines := if given.Some? then onDisk(given.value) else [];
      var rebuilt := RebuildFromLog(platform, lines);
      view := rebuilt;
    }

    method Subscribe(capacity: int) returns (queue: UpdateQueue)
      requires Valid()
      modifies this`subscribers
      ensures Valid() && fresh(queue) && queue.capacity == capacity && subscribers == old(subscribers) + {queue}
    {
      queue := new UpdateQueue(capacity);
      subscribers := subscribers + {queue};
    }

    /** Opens the log once the session is named, and flushes what was buffered. */
    method OpenLog(ghost all: seq<LiveFrame>)
      requires LogInv(all)
      modifies this`log, this`pending, this`dropped, this`written
      ensures LogInv(all) && (log == old(log) || fresh(log))
      ensures !replay && loggingEnabled && identity.Some? ==> log != null
    {
      if !loggingEnabled || log != null || logPath.None? || replay {
        return;
      }
      var buffered := pending;
      log := new LiveSessionLog(platform, maxBytes, lineBytes, onDisk(logPath.value));
      pending := [];
      NothingWrittenYet(platform, onDisk(identity.value));
      Flush(buffered, all);
    }

    method Flush(buffered: seq<LiveFrame>, ghost all: seq<LiveFrame>)
      requires Flushing(buffered, all)
      modifies this`dropped, this`written, log
      ensures Flushing([], all)
    {
      for i := 0 to |buffered|
        invariant Flushing(buffered[i..], all)
      {
        assert buffered[i..] == [buffered[i]] + buffered[i + 1..];
        FlushOne(buffered[i], buffered[i + 1..], all);
      }
      assert buffered[|buffered|..] == [];
    }

    /** The log is open and `left` is still to be flushed to it. */
    ghost predicate Flushing(left: seq<LiveFrame>, all: seq<LiveFrame>)
      reads this`pending, this`written, this`dropped, this`log, this`logPath, this`identity, log
    {
      && log != null && pending == [] && identity.Some? && !replay && loggingEnabled && logPath == identity
      && (given.Some? ==> identity == given)
      && Placed(platform, written, left, dropped, all)
      && log.Valid() && log.platform == platform && log.maxBytes == maxBytes && log.found == onDisk(identity.value)
      && log.lines == onDisk(identity.value) + LinesFor(platform, written)
    }

    method FlushOne(frame: LiveFrame, ghost left: seq<LiveFrame>, ghost all: seq<LiveFrame>)
      requires Flushing([frame] + left, all)
      modifies this`dropped, this`written, log
      ensures Flushing(left, all)
    {
      LinesForOneMore(platform, written, frame);
      var done := log.Append(frame);
      if done {
        PlacedWrite(platform, written, frame, left, dropped, all);
        written := written + [frame];
      } else {
        PlacedDrop(platform, written, frame, left, dropped, all);
        dropped := dropped + 1;
      }
    }

    /** Writes one frame to the open log, or counts it as dropped. */
    method AppendToLog(frame: LiveFrame, ghost all: seq<LiveFrame>)
      requires LogInv(all) && log != null && !replay && loggingEnabled && NormalFrame(platform, frame)
      modifies this`dropped, this`written, log
      ensures LogInv(all + [frame])
    {
      PlacedNext(platform, written, [], dropped, all, frame);
      assert [] + [frame] == [frame] + [];
      FlushOne(frame, [], all + [frame]);
    }

    /** Logs an accepted frame, buffering while the session is still unnamed. */
    method Record(frame: LiveFrame, ghost all: seq<LiveFrame>)
      requires LogInv(all) && NormalFrame(platform, frame)
      modifies this`log, this`pending, this`dropped, this`written, log
      ensures LogInv(all + [frame]) && (log == old(log) || fresh(log))
    {
      if replay {
        return;
      }
      if !loggingEnabled {
        PlacedNext(platform, written, pending, dropped, all, frame);
        dropped := dropped + 1;
        return;
      }
      if log == null {
        if identity.None? {
          PlacedNext(platform, written, pending, dropped, all, frame);
          if |pending| < MAX_PENDING_FRAMES {
            pending := pending + [frame];
          } else {
            dropped := dropped + 1;
          }
          return;
        }
        OpenLog(all);
      }
      AppendToLog(frame, all);
    }

    /** Names the session from the feed's own SessionInfo. */
    method ResolveIdentity(frame: LiveFrame, today: int, ghost all: seq<LiveFrame>)
      requires LogInv(all)
      modifies this`identity, this`logPath
      ensures LogInv(all)
      ensures identity == if old(identity).Some? || frame.topic != "SessionInfo" then old(identity)
                          else IdentityFrom(parseDate, frame.payload, today)
    {
      if identity.Some? || frame.topic != "SessionInfo" {
        return;
      }
      identity := IdentityFrom(parseDate, frame.payload, today);
      if identity.Some? && !replay {
        logPath := identity;
      }
    }

    /** The merged topic state, rather than the delta. */
    function UpdateOf(frame: LiveFrame): Update
      requires frame.topic in view.topics
      reads this`view, view
    {
      Update(frame.topic, frame.initial, frame.receivedAt, view.topics[frame.topic].payload)
    }

    /** Offers the update to every subscriber. */
    method Publish(frame: LiveFrame)
      requires frame.topic in view.topics && QueuesValid()
      modifies subscribers
      ensures QueuesValid() && forall q :: q in subscribers ==> q.offered == old(q.offered) + [UpdateOf(frame)]
      ensures forall q :: q in subscribers ==>
                q.offered == old(q.offered) + [Update(frame.topic, frame.initial, frame.receivedAt,
                                                      view.topics[frame.topic].payload)]
    {
      var update := UpdateOf(frame);
      var left := subscribers;
      while left != {}
        invariant left <= subscribers
        invariant QueuesValid()
        invariant forall q :: q in subscribers ==>
                  q.offered == if q in left then old(q.offered) else old(q.offered) + [update]
      {
        var q :| q in left;
        Notify(q, update);
        left := left - {q};
      }
    }

    static method Notify(queue: UpdateQueue, update: Update)
      requires queue.Valid()
      modifies queue
      ensures queue.Valid() && queue.offered == old(queue.offered) + [update]
    {
      queue.Offer(update);
    }

    method ApplyToView(frame: LiveFrame) returns (changed: bool)
      requires ViewInv() && NormalFrame(platform, frame)
      modifies this`history, view
      ensures ViewInv() && frame.topic in view.topics
      ensures history == old(history) + [frame] && changed == Changes(old(view.Payloads()), frame)
      ensures Accepted() == if changed then old(Accepted()) + [frame] else old(Accepted())
    {
      HistoryGrows(platform, Seed(), history, frame);
      history := history + [frame];
      changed := view.Apply(frame);
      assert frame.topic in view.Payloads();
    }

    /** Counts a frame that has just been applied. */
    method CountFrame(changed: bool)
      requires accepted + duplicates + 1 == |history| && handled == accepted + duplicates + Rejections(rejected)
      requires |Accepted()| == accepted + if changed then 1 else 0
      modifies this`handled, this`accepted, this`duplicates
      ensures StatsInv() && handled == old(handled) + 1
    {
      handled := handled + 1;
      if changed {
        accepted := accepted + 1;
      } else {
        duplicates := duplicates + 1;
      }
    }

    /** Applies a frame to the view and counts it. */
    method Absorb(frame: LiveFrame) returns (changed: bool)
      requires ViewInv() && StatsInv() && NormalFrame(platform, frame)
      modifies this`handled, this`history, this`accepted, this`duplicates, view
      ensures ViewInv() && StatsInv() && handled == old(handled) + 1 && frame.topic in view.topics
      ensures history == old(history) + [frame]
      ensures Accepted() == if changed then old(Accepted()) + [frame] else old(Accepted())
      ensures Reports() == if changed then old(Reports()) + FrameReports(frame, view.Payloads()) else old(Reports())
    {
      PitReportsGrow(Seed(), history, frame);
      changed := ApplyToView(frame);
      CountFrame(changed);
    }

    method CountRejection(reason: Rejection)
      requires StatsInv()
      modifies this`handled, this`rejected
      ensures StatsInv() && handled == old(handled) + 1
      ensures rejected == old(rejected)[reason := CountOf(old(rejected), reason) + 1]
    {
      RejectionsGrow(rejected, reason);
      handled := handled + 1;
      rejected := rejected[reason := CountOf(rejected, reason) + 1];
    }

    /** The session's current state, for deciding what counts as a stop. */
    function SessionStatus(): string
      reads this`view, view
    {
      StatusIn(view.Payloads())
    }

    /** Timing frames are shown to the pit-stop tracker, with the state this frame is in. */
    method TrackPits(frame: LiveFrame)
      requires pits.Valid()
      modifies pits
      ensures PitInv(old(pits.history) + FrameReports(frame, view.Payloads()))
    {
      SeenThenReported(pits.history, SessionStatus(), FrameReports(frame, view.Payloads())[1..]);
      pits.Note(SessionStatus());
      if frame.topic == TIMING_DATA {
        pits.Observe(Obj(frame.payload), frame.receivedAt, frame.feedTimestamp, SessionStatus(), frame.initial, map[]);
      }
    }

    /** A frame that normalisation refuses is counted and changes nothing else. */
    method Reject(reason: Rejection)
      requires Valid()
      modifies this`handled, this`rejected
      ensures Valid() && handled == old(handled) + 1 && Accepted() == old(Accepted())
      ensures rejected == old(rejected)[reason := CountOf(old(rejected), reason) + 1]
      ensures forall q :: q in subscribers ==> q.offered == old(q.offered)
    {
      CountRejection(reason);
    }

    /** An accepted frame names the session, is shown to the tracker, and is logged. */
    method Keep(frame: LiveFrame, today: int, ghost all: seq<LiveFrame>, ghost reports: seq<Report>)
      requires Filed(all, reports) && NormalFrame(platform, frame)
      modifies this`identity, this`logPath, this`log, this`pending, this`dropped, this`written, log, pits
      ensures Filed(all + [frame], reports + FrameReports(frame, view.Payloads())) && (log == old(log) || fresh(log))
    {
      NamingStays(parseDate, all, frame);
      ResolveIdentity(frame, today, all);
      TrackPits(frame);
      Record(frame, all);
    }

    /** Keeping a frame touches neither the view nor the counts. */
    method FileAway(frame: LiveFrame, today: int, ghost all: seq<LiveFrame>, ghost reports: seq<Report>)
      requires Filed(all, reports) && ViewInv() && StatsInv() && NormalFrame(platform, frame)
      modifies this`identity, this`logPath, this`log, this`pending, this`dropped, this`written, log, pits
      ensures Filed(all + [frame], reports + FrameReports(frame, view.Payloads())) && (log == old(log) || fresh(log))
      ensures ViewInv() && StatsInv()
    {
      Keep(frame, today, all, reports);
    }

    /** A frame that changes the view is kept; one that does not is a duplicate. */
    method Ingest(frame: LiveFrame, today: int) returns (changed: bool)
      requires Valid() && NormalFrame(platform, frame)
      modifies this`handled, this`history, this`accepted, this`duplicates, this`identity, this`logPath, this`log,
               this`pending, this`dropped, this`written, view, log, pits
      ensures Valid() && handled == old(handled) + 1
      ensures history == old(history) + [frame] && frame.topic in view.topics
      ensures Accepted() == if changed then old(Accepted()) + [frame] else old(Accepted())
    {
      ghost var all, reports := Accepted(), Reports();
      changed := Absorb(frame);
      if changed {
        FileAway(frame, today, all, reports);
      }
    }

    /** Publishing touches nothing but the queues. */
    method Share(frame: LiveFrame)
      requires Valid() && frame.topic in view.topics
      modifies subscribers
      ensures Valid() && forall q :: q in subscribers ==> q.offered == old(q.offered) + [UpdateOf(frame)]
    {
      Publish(frame);
    }

    /** A normalised frame is ingested, and published if it changed the view. */
    method Accept(frame: LiveFrame, today: int) returns (changed: bool)
      requires Valid() && NormalFrame(platform, frame)
      modifies this`handled, this`history, this`accepted, this`duplicates, this`identity, this`logPath, this`log,
               this`pending, this`dropped, this`written, view, log, pits, subscribers
      ensures Valid() && handled == old(handled) + 1
      ensures history == old(history) + [frame] && frame.topic in view.topics
      ensures Accepted() == if changed then old(Accepted()) + [frame] else old(Accepted())
      ensures changed ==> forall q :: q in subscribers ==> q.offered == old(q.offered) + [UpdateOf(frame)]
      ensures !changed ==> forall q :: q in subscribers ==> q.offered == old(q.offered)
    {
      changed := Ingest(frame, today);
      if changed {
        Share(frame);
      }
    }

    /** What normalisation makes of a raw frame. */
    function Normalized(raw: RawFrame, received: RawReceived): (r: Result<LiveFrame, Rejection>)
      requires RawWellFormed(raw.payload)
      ensures r.Ok? ==> NormalFrame(platform, r.value)
    {
      var r := NormalizeFrame(platform, raw.topic, raw.payload, received, Flag(raw.initial), raw.timestamp);
      if r.Ok? then
        FramesAreNormal(platform, raw.topic, raw.payload, received, Flag(raw.initial), raw.timestamp);
        r
      else r
    }

    /** What happens to a frame once it is normalised: counted as rejected, or accepted. */
    method Take(r: Result<LiveFrame, Rejection>, today: int) returns (changed: bool)
      requires Valid() && (r.Ok? ==> NormalFrame(platform, r.value))
      modifies this`handled, this`history, this`accepted, this`duplicates, this`rejected, this`identity, this`logPath,
               this`log, this`pending, this`dropped, this`written, view, log, pits, subscribers
      ensures Valid() && handled == old(handled) + 1
      ensures r.Err? ==>
                && !changed && history == old(history) && Accepted() == old(Accepted())
                && rejected == old(rejected)[r.error := CountOf(old(rejected), r.error) + 1]
                && forall q :: q in subscribers ==> q.offered == old(q.offered)
      ensures r.Ok? ==>
                && history == old(history) + [r.value] && rejected == old(rejected) && r.value.topic in view.topics
                && Accepted() == if changed then old(Accepted()) + [r.value] else old(Accepted())
      ensures r.Ok? && changed ==> forall q :: q in subscribers ==> q.offered == old(q.offered) + [UpdateOf(r.value)]
      ensures r.Ok? && !changed ==> forall q :: q in subscribers ==> q.offered == old(q.offered)
    {
      changed := false;
      if r.Ok? {
        changed := Accept(r.value, today);
      } else {
        Reject(r.error);
      }
    }

    /** One frame from the feed. */
    method Handle(raw: RawFrame, received: RawReceived, today: int)
        returns (r: Result<LiveFrame, Rejection>, changed: bool)
      requires Valid() && RawWellFormed(raw.payload)
      modifies this, view, log, pits, subscribers
      ensures Valid() && handled == old(handled) + 1 && view == old(view) && subscribers == old(subscribers)
      ensures r == Normalized(raw, received)
      ensures r.Err? ==> !changed && history == old(history)
      ensures r.Ok? ==> history == old(history) + [r.value]
      ensures r.Ok? ==> rejected == old(rejected)
      ensures r.Err? ==> rejected == old(rejected)[r.error := CountOf(old(rejected), r.error) + 1]
      ensures changed ==> r.Ok? && Accepted() == old(Accepted()) + [r.value]
      ensures !changed ==> Accepted() == old(Accepted())
      ensures !changed ==> forall q :: q in subscribers ==> q.offered == old(q.offered)
      ensures changed ==>
                && r.value.topic in view.topics
                && forall q :: q in subscribers ==> q.offered == old(q.offered) + [UpdateOf(r.value)]
    {
      r := Normalized(raw, received);
      changed := Take(r, today);
    }

    /** What `run` does before it connects: with a known identity the log is opened at once. */
    method Start()
      requires Valid()
      modifies this`log, this`pending, this`dropped, this`written
      ensures Valid()
    {
      OpenLog(Accepted());
    }

    /**
     Main result: with the log open, nothing dropped, and a log that seeded the view or whose old lines leave nothing,
     reading the file back gives the view's own payloads. `UnseededAgreesExactlyWhen` says that no other old lines will
     do.
     */
    lemma LogRebuildsView()
      requires Valid() && platform.Exact() && !replay && log != null && dropped == 0
      requires given.Some? || LeavesNothing(Replay(map[], FramesIn(platform, onDisk(identity.value))))
      requires AllSortSafe(history)
      ensures Replay(map[], FramesIn(platform, log.lines)) == view.Payloads()
    {
      var existing := onDisk(identity.value);
      assert written + pending == written;
      FullSubsequence(written, Accepted());
      FramesInJoin(platform, existing, LinesFor(platform, written));
      LinesComeBack(platform, written);
      if given.Some? {
        LogAgreesWithView(FramesIn(platform, existing), history);
      } else {
        LeftoverIsCovered(parseDate, FramesIn(platform, existing), history);
      }
    }

    /**
     The stops of a live session are those of the reports of its accepted timing frames, and while the session's status
     only moves on they are its racing stops.
     */
    lemma StopsAreThoseReported()
      requires Valid()
      ensures pits.recorded == StopsOf(pits.limit, Reports())
      ensures forall car :: car in pits.open <==>
                var latest := LatestReport(Reports(), |Reports()|, car); latest.Some? && Reports()[latest.value].inPit
      ensures MovesOn(StatusesOf(Reports())) ==> pits.recorded == RacingStopsOf(pits.limit, Reports())
    {
      if MovesOn(StatusesOf(Reports())) {
        MovingOnIsEnough(pits.limit, Reports(), StatusesOf(Reports()));
      }
    }

    /** Conservation outside a replay: every handled frame is rejected, a duplicate, written, dropped or waiting. */
    lemma EveryFrameIsAccountedFor()
      requires Valid() && !replay
      ensures handled == |written| + dropped + |pending| + duplicates + Rejections(rejected)
      ensures |pending| <= MAX_PENDING_FRAMES && IsSubsequence(written + pending, AcceptedBy(Seed(), history))
      ensures log != null ==> log.size <= maxBytes || log.lines == onDisk(identity.value)
    {
    }
  }

  lemma HistoryGrows(platform: Platform, seed: Payloads, history: seq<LiveFrame>, frame: LiveFrame)
    requires AllNormal(platform, history) && NormalFrame(platform, frame)
    ensures AllNormal(platform, history + [frame])
    ensures Replay(seed, history + [frame]) == Step(Replay(seed, history), frame)
    ensures AcceptedBy(seed, history + [frame])
            == if Changes(Replay(seed, history), frame) then AcceptedBy(seed, history) + [frame]
              else AcceptedBy(seed, history)
  {
    assert (history + [frame])[..|history|] == history;
  }

  lemma NothingWrittenYet(platform: Platform, lines: seq<LogLine>)
    ensures lines + LinesFor(platform, []) == lines
  {
  }

  lemma LinesForOneMore(platform: Platform, frames: seq<LiveFrame>, frame: LiveFrame)
    ensures LinesFor(platform, frames + [frame]) == LinesFor(platform, frames) + [ToLogLine(platform, frame)]
  {
    assert (frames + [frame])[..|frames|] == frames;
  }
}
