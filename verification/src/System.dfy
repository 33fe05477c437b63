/** The whole server as a state machine: writer steps, reads, subscriptions, crashes and restarts, in any order. */
module System {
  import opened Bytes
  import opened Types
  import opened Index
  import opened Appending
  import opened Dedup
  import R = Recovery
  import B = Broker
  import W = Writer
  import U = Subscription

  /** Where the writer is in handling a request; `Down` is between a crash and the next `open`. */
  datatype Phase =
    | Down
    | Idle
    | Written(stamped: W.Stamped, batch: seq<RecordedEvent>)
    | Synced(stamped: W.Stamped, batch: seq<RecordedEvent>)
    | Publishing(stamped: W.Stamped, batch: seq<RecordedEvent>, sent: nat)

  datatype Answer = Answer(request: W.Request, response: Result<seq<RecordedEvent>>, wrote: bool)

  /**
   * File and durable length; the in-memory log, cache and ring; the subscriptions. The last three fields are
   * history: the batches whose encoding the file is a prefix of, all answers given, and all events ever
   * shown to a client.
   */
  datatype Sys = Sys(
    cacheCapacity: nat,
    ringCapacity: nat,
    file: seq<byte>,
    synced: nat,
    log: Log,
    dedup: Lru,
    phase: Phase,
    base: nat,
    ring: B.Ring,
    subs: seq<U.Sub>,
    written: seq<seq<RecordedEvent>>,
    answers: seq<Answer>,
    seen: set<RecordedEvent>)

  datatype Label =
    | Submit(stamped: W.Stamped)
    | Sync
    | IndexBatch
    | PublishNext
    | Respond
    | QueryAll(from: u64, max: u64)
    | QueryStream(stream: Uuid, from: u64, max: u64)
    | Subscribe(target: U.Target, from: u64)
    | Poll(i: nat)
    | Close
    | Kill
    | PowerLoss(cut: nat)
    | Restart

  function Init(cacheCapacity: nat, ringCapacity: nat): Sys {
    Sys(cacheCapacity, ringCapacity, R.FileBytes([]), 8, Log([], map[]), Empty(cacheCapacity), Idle,
        0, B.NewRing(ringCapacity), [], [], [], {})
  }

  function WriterState(s: Sys): W.State {
    W.State(s.file, s.log, s.dedup)
  }

  function EventSet(events: seq<RecordedEvent>): set<RecordedEvent> {
    set e | e in events
  }

  predicate Enabled(s: Sys, l: Label) {
    match l
    case Submit(stamped) => s.phase.Idle? && !s.ring.closed && W.Admitted(s.log, stamped.request)
    case Sync => s.phase.Written?
    case IndexBatch => s.phase.Synced?
    case PublishNext => s.phase.Publishing? && s.phase.sent < |s.phase.batch|
    case Respond => s.phase.Publishing? && s.phase.sent == |s.phase.batch|
    case QueryAll(_, _) => !s.phase.Down?
    case QueryStream(stream, _, _) => !s.phase.Down? && InRange(Entry(s.log.streams, stream), |s.log.events|)
    case Subscribe(_, _) => !s.phase.Down?
    case Poll(i) => !s.phase.Down? && i < |s.subs| && U.Readable(s.log, s.subs[i].target)
    case Close => s.phase.Idle?
    case Kill => !s.phase.Down?
    case PowerLoss(cut) => s.synced <= cut <= |s.file|
    case Restart => s.phase.Down?
  }

  /** A request either starts a write, or is answered at once: rejected, or found in the cache. */
  function SubmitStep(s: Sys, stamped: W.Stamped): Sys
    requires W.Admitted(s.log, stamped.request)
  {
    var r := stamped.request;
    if W.Writes(WriterState(s), stamped) then
      var batch := Append(s.log, r.stream, r.expected, stamped.at, r.events).value;
      s.(file := s.file + R.BatchBytes(batch), written := s.written + [batch],
         dedup := AccessAll(s.dedup, CheckAccesses(r.events)), phase := Written(stamped, batch))
    else
      var o := W.Process(WriterState(s), stamped);
      s.(dedup := o.state.dedup, answers := s.answers + [Answer(r, o.response, false)],
         seen := s.seen + (if o.response.Ok? then EventSet(o.response.value) else {}))
  }

  /** `open` and `spawn_writer` on the file as it is. */
  function RestartStep(s: Sys): Sys {
    match R.OpenFile(s.file)
    case Err(_) => s
    case Ok((batches, kept)) =>
      var events := R.Flatten(batches);
      s.(file := s.file[..kept], synced := if kept < |s.file| then kept else s.synced, written := batches,
         log := Log(events, IndexOf(events)), dedup := AccessAll(Empty(s.cacheCapacity), SeedAccesses(events)),
         phase := Idle, base := |events|, ring := B.NewRing(s.ringCapacity), subs := [])
  }

  function Step(s: Sys, l: Label): Sys
    requires Enabled(s, l)
  {
    match l
    case Submit(stamped) => SubmitStep(s, stamped)
    case Sync => s.(synced := |s.file|, phase := Synced(s.phase.stamped, s.phase.batch))
    case IndexBatch =>
      s.(log := Extended(s.log, s.phase.stamped.request.stream, s.phase.batch),
         dedup := AccessAll(s.dedup, RecordAccesses(s.phase.batch)),
         phase := Publishing(s.phase.stamped, s.phase.batch, 0))
    case PublishNext =>
      s.(ring := B.Send(s.ring, s.phase.batch[s.phase.sent]), phase := s.phase.(sent := s.phase.sent + 1))
    case Respond =>
      s.(phase := Idle, answers := s.answers + [Answer(s.phase.stamped.request, Ok(s.phase.batch), true)],
         seen := s.seen + EventSet(s.phase.batch))
    case QueryAll(from, max) => s.(seen := s.seen + EventSet(ReadAll(s.log, from, max)))
    case QueryStream(stream, from, max) =>
      (match ReadStream(s.log, stream, from, max)
       case Err(_) => s
       case Ok(events) => s.(seen := s.seen + EventSet(events)))
    case Subscribe(target, from) => s.(subs := s.subs + [U.Register(target, from, s.ring)])
    case Poll(i) =>
      var sub := U.Poll(s.subs[i], s.log, s.ring);
      s.(subs := s.subs[i := sub], seen := s.seen + EventSet(U.Delivered(sub.out)))
    case Close => s.(ring := s.ring.(closed := true))
    case Kill => s.(phase := Down, subs := [])
    case PowerLoss(cut) => s.(file := s.file[..cut], synced := cut, phase := Down, subs := [])
    case Restart => RestartStep(s)
  }

  /** A run is a sequence of labels, each enabled where it is taken. */
  predicate Runs(s: Sys, labels: seq<Label>)
    decreases |labels|, 0
  {
    labels == [] || (Runs(s, labels[..|labels| - 1]) && Enabled(After(s, labels[..|labels| - 1]), labels[|labels| - 1]))
  }

  function After(s: Sys, labels: seq<Label>): Sys
    requires Runs(s, labels)
    decreases |labels|, 1
  {
    if labels == [] then s else Step(After(s, labels[..|labels| - 1]), labels[|labels| - 1])
  }

  // ------------------------------------------------------------------------------------ invariant

  /** The events of the batches that lie completely within the synced part of the file. */
  function Durable(s: Sys): seq<RecordedEvent>
    requires s.synced >= 8
  {
    R.Flatten(s.written[..R.Whole(s.written, s.synced - 8)])
  }

  ghost predicate FileOk(s: Sys) {
    && (forall b <- s.written :: R.WritableBatch(b))
    && 8 <= s.synced <= |s.file| <= |R.FileBytes(s.written)|
    && s.file == R.FileBytes(s.written)[..|s.file|]
    && WellPositioned(R.Flatten(s.written))
    && |R.Flatten(s.written)| <= VEC_LIMIT
    && s.cacheCapacity > 0 && s.ringCapacity > 0
  }

  ghost predicate ServerOk(s: Sys) {
    && |s.file| == |R.FileBytes(s.written)|
    && U.Serves(s.log, s.base, s.ring)
    && AgreesWith(s.dedup, s.log.events)
    && forall i | 0 <= i < |s.subs| :: U.SubOk(s.subs[i], s.log, s.base, s.ring)
  }

  /** The batch is what `append` makes of the request on the current log; it is in the file but not yet in the log. */
  ghost predicate Pending(s: Sys, stamped: W.Stamped, batch: seq<RecordedEvent>) {
    var r := stamped.request;
    && W.Admitted(s.log, r)
    && Append(s.log, r.stream, r.expected, stamped.at, r.events) == Ok(batch)
    && s.written != [] && s.written[|s.written| - 1] == batch
    && R.Flatten(s.written) == s.log.events + batch
    && s.base + s.ring.tail == |s.log.events|
  }

  /** A batch an expected version allowed: of the request's stream, and continuing it where the version says. */
  predicate Accepted(request: W.Request, batch: seq<RecordedEvent>) {
    && batch != [] && AllOf(batch, request.stream)
    && (request.expected.Exact? ==> batch[0].streamVersion == request.expected.version + 1)
    && (request.expected.NoStream? ==> batch[0].streamVersion == 0)
  }

  ghost predicate PhaseOk(s: Sys) {
    match s.phase
    case Down => true
    case Idle => s.log.events == R.Flatten(s.written) && s.base + s.ring.tail == |s.log.events|
    case Written(stamped, batch) => Pending(s, stamped, batch)
    case Synced(stamped, batch) => Pending(s, stamped, batch) && s.synced == |s.file|
    case Publishing(stamped, batch, sent) =>
      && s.log.events == R.Flatten(s.written)
      && s.synced == |s.file|
      && sent <= |batch|
      && s.base + s.ring.tail + |batch| - sent == |s.log.events|
      && Accepted(stamped.request, batch)
      && LiesIn(batch, s.log.events) && batch[0].globalPosition + |batch| == |s.log.events|
  }

  /** The position behind everything answered so far. */
  function Answered(s: Sys): int {
    match s.phase
    case Down => |R.Flatten(s.written)|
    case Publishing(_, batch, _) => |s.log.events| - |batch|
    case _ => |s.log.events|
  }

  ghost predicate AnswersOk(s: Sys)
    requires s.synced >= 8
  {
    && (forall i | 0 <= i < |s.answers| && s.answers[i].wrote ::
          && s.answers[i].response.Ok?
          && Accepted(s.answers[i].request, s.answers[i].response.value)
          && LiesIn(s.answers[i].response.value, Durable(s))
          && End(s.answers[i]) <= Answered(s))
    && (forall i, j | 0 <= i < j < |s.answers| && s.answers[i].wrote && s.answers[j].wrote ::
          s.answers[i].response.Ok? && s.answers[j].response.Ok? && s.answers[j].response.value != []
          && End(s.answers[i]) <= s.answers[j].response.value[0].globalPosition)
  }

  function End(a: Answer): int {
    if a.response.Ok? && a.response.value != [] then a.response.value[0].globalPosition + |a.response.value| else 0
  }

  ghost predicate In(e: RecordedEvent, events: seq<RecordedEvent>) {
    e.globalPosition < |events| && events[e.globalPosition] == e
  }

  ghost predicate SysOk(s: Sys) {
    FileOk(s) && (s.phase.Down? || ServerOk(s)) && PhaseOk(s) && AnswersOk(s)
  }
}
