/** The decision part of `Store::append`: version check, validation, and assignment of positions. */
module Appending {
  import opened Bytes
  import opened Types
  import opened Codec
  import opened Index
  import Recovery

  /** A Rust `Vec` holds at most `isize::MAX` items. */
  const VEC_LIMIT: nat := 0x7FFF_FFFF_FFFF_FFFF

  predicate VersionMatches(streams: map<Uuid, seq<u64>>, stream: Uuid, expected: ExpectedVersion) {
    match expected
    case Any => true
    case NoStream => stream !in streams
    case Exact(n) => stream in streams && |streams[stream]| - 1 == n
  }

  function Record(p: ProposedEvent, stream: Uuid, version: u64, position: u64, at: u64): RecordedEvent {
    RecordedEvent(p.eventId, stream, version, position, at, p.eventType, p.metadata, p.payload)
  }

  /** What the event checks of `append` amount to: a type of 1 to 256 bytes, and a record of up to 64 KiB. */
  predicate Acceptable(p: ProposedEvent) {
    1 <= |p.eventType| <= 256 && 74 + |p.eventType| + |p.metadata| + |p.payload| <= 65536
  }

  /** The recorded event carries what was proposed, and is the one event at this place in the log and its stream. */
  predicate Stores(e: RecordedEvent, p: ProposedEvent, stream: Uuid, version: int, position: int, at: u64) {
    && e.eventId == p.eventId && e.eventType == p.eventType && e.metadata == p.metadata && e.payload == p.payload
    && e.streamId == stream && e.streamVersion == version && e.globalPosition == position && e.recordedAt == at
  }

  /** The optimistic concurrency rule, for a stream of `count` events. */
  predicate Expected(expected: ExpectedVersion, count: nat) {
    match expected
    case Any => true
    case NoStream => count == 0
    case Exact(v) => count == v + 1
  }

  /** Validate and position the proposed events in order; the first offending event decides the error. */
  function BuildBatch(proposed: seq<ProposedEvent>, stream: Uuid, version: nat, position: nat,
                      at: u64): Result<seq<RecordedEvent>>
    requires version + |proposed| <= VEC_LIMIT && position + |proposed| <= VEC_LIMIT
  {
    if proposed == [] then Ok([]) else
    var p := proposed[0];
    if p.eventType == [] || |p.eventType| > MAX_EVENT_TYPE_LEN then Err(InvalidArgument) else
    var e := Record(p, stream, version, position, at);
    if |RecordBytes(e)| > MAX_EVENT_SIZE then Err(EventTooLarge(|RecordBytes(e)|)) else
    match BuildBatch(proposed[1..], stream, version + 1, position + 1, at)
    case Err(error) => Err(error)
    case Ok(rest) => Ok([e] + rest)
  }

  /** There is room in memory for the batch, and the stream's list is no longer than the log. */
  predicate Fits(log: Log, stream: Uuid, proposed: seq<ProposedEvent>) {
    |log.events| + |proposed| <= VEC_LIMIT && |Entry(log.streams, stream)| <= |log.events|
  }

  function Append(log: Log, stream: Uuid, expected: ExpectedVersion, at: u64,
                  proposed: seq<ProposedEvent>): Result<seq<RecordedEvent>>
    requires Fits(log, stream, proposed)
  {
    if !VersionMatches(log.streams, stream, expected) then Err(WrongExpectedVersion)
    else BuildBatch(proposed, stream, |Entry(log.streams, stream)|, |log.events|, at)
  }

  function Extended(log: Log, stream: Uuid, batch: seq<RecordedEvent>): Log {
    Log(log.events + batch, PushBatch(log.streams, stream, batch))
  }

  /** The invariant of the in-memory log. */
  ghost predicate Consistent(log: Log) {
    Indexed(log) && WellPositioned(log.events) && |log.events| <= VEC_LIMIT
  }

  // ---------------------------------------------------------------------------- properties

  /** A batch is built exactly when every event is acceptable; event `i` then gets the next position and version. */
  lemma {:induction false} BuildBatchExact(proposed: seq<ProposedEvent>, stream: Uuid, version: nat, position: nat,
                                           at: u64)
    requires version + |proposed| <= VEC_LIMIT && position + |proposed| <= VEC_LIMIT
    ensures var r := BuildBatch(proposed, stream, version, position, at);
            && (r.Ok? <==> forall p <- proposed :: Acceptable(p))
            && (r.Ok? ==>
                && |r.value| == |proposed|
                && forall i | 0 <= i < |proposed| ::
                     Stores(r.value[i], proposed[i], stream, version + i, position + i, at) && Storable(r.value[i]))
    decreases |proposed|
  {
    hide RecordBytes;
    if proposed != [] {
      RecordSize(Record(proposed[0], stream, version, position, at));
      BuildBatchExact(proposed[1..], stream, version + 1, position + 1, at);
      assert forall p: ProposedEvent :: p in proposed <==> p == proposed[0] || p in proposed[1..];
      assert Acceptable(proposed[0]) <==> Storable(Record(proposed[0], stream, version, position, at));
    }
  }

  /** The first unacceptable event decides the error, whatever follows it: its type is looked at before its size. */
  lemma {:induction false} FirstOffenderDecides(proposed: seq<ProposedEvent>, stream: Uuid, version: nat,
                                                position: nat, at: u64, k: nat)
    requires version + |proposed| <= VEC_LIMIT && position + |proposed| <= VEC_LIMIT
    requires Offends(proposed, k)
    ensures BuildBatch(proposed, stream, version, position, at) == Err(Complaint(proposed[k]))
    decreases |proposed|
  {
    hide RecordBytes;
    RecordSize(Record(proposed[0], stream, version, position, at));
    if k > 0 {
      assert Acceptable(proposed[0]);
      FirstOffenderDecides(proposed[1..], stream, version + 1, position + 1, at, k - 1);
    }
  }

  lemma ConsistentFits(log: Log, stream: Uuid, proposed: seq<ProposedEvent>)
    requires Consistent(log) && |log.events| + |proposed| <= VEC_LIMIT
    ensures Fits(log, stream, proposed)
    ensures |Entry(log.streams, stream)| == |Project(log.events, stream)|
    ensures stream in log.streams <==> Project(log.events, stream) != []
  {
    IndexIsProjection(log.events, stream);
    ProjectSize(log.events, stream);
  }

  /** The version check passes exactly when the number of events of the stream is what the request expects. */
  lemma VersionExact(log: Log, stream: Uuid, expected: ExpectedVersion)
    requires Consistent(log)
    ensures VersionMatches(log.streams, stream, expected) <==> Expected(expected, |Project(log.events, stream)|)
  {
    hide WellPositioned;
    IndexIsProjection(log.events, stream);
  }

  /**
   * What becomes of an append. It fails with WrongExpectedVersion exactly when the stream has not the expected number
   * of events; otherwise it succeeds exactly when all events are acceptable. Then the stream, as it is read back, goes
   * on with exactly the proposed events, each with all its content, and no other stream changes.
   */
  lemma AppendExact(log: Log, stream: Uuid, expected: ExpectedVersion, at: u64, proposed: seq<ProposedEvent>)
    requires Consistent(log) && Fits(log, stream, proposed)
    ensures var r, count := Append(log, stream, expected, at, proposed), |Project(log.events, stream)|;
            && (r == Err(WrongExpectedVersion) <==> !Expected(expected, count))
            && (r.Ok? <==> Expected(expected, count) && forall p <- proposed :: Acceptable(p))
            && (r.Ok? ==>
                var events := Extended(log, stream, r.value).events;
                && |events| == |log.events| + |proposed| && log.events <= events
                && |Project(events, stream)| == count + |proposed|
                && (forall i | 0 <= i < |proposed| ::
                      && Stores(events[|log.events| + i], proposed[i], stream, count + i, |log.events| + i, at)
                      && Project(events, stream)[count + i] == events[|log.events| + i])
                && forall other: Uuid | other != stream :: Project(events, other) == Project(log.events, other))
  {
    hide WellPositioned, BuildBatch, IndexOf, Project;
    var r, count := Append(log, stream, expected, at, proposed), |Project(log.events, stream)|;
    VersionExact(log, stream, expected);
    ConsistentFits(log, stream, proposed);
    BuildBatchExact(proposed, stream, count, |log.events|, at);
    NeverWrongVersion(proposed, stream, count, |log.events|, at);
    if r.Ok? {
      forall other: Uuid
        ensures Project(log.events + r.value, other)
                == Project(log.events, other) + (if other == stream then r.value else [])
      {
        ProjectConcat(log.events, r.value, other);
        ProjectOwn(r.value, stream, other);
      }
    }
  }

  /** The error of an event that is not acceptable: its type is looked at before its size. */
  function Complaint(p: ProposedEvent): Error {
    if 1 <= |p.eventType| <= 256 then EventTooLarge(74 + |p.eventType| + |p.metadata| + |p.payload|)
    else InvalidArgument
  }

  /** Event `k` is the first that is not acceptable. */
  predicate Offends(proposed: seq<ProposedEvent>, k: nat) {
    k < |proposed| && !Acceptable(proposed[k]) && forall i | 0 <= i < k :: Acceptable(proposed[i])
  }

  lemma {:induction false} NeverWrongVersion(proposed: seq<ProposedEvent>, stream: Uuid, version: nat, position: nat,
                                             at: u64)
    requires version + |proposed| <= VEC_LIMIT && position + |proposed| <= VEC_LIMIT
    ensures BuildBatch(proposed, stream, version, position, at) != Err(WrongExpectedVersion)
    decreases |proposed|
  {
    hide RecordBytes;
    if proposed != [] {
      NeverWrongVersion(proposed[1..], stream, version + 1, position + 1, at);
    }
  }

  /** An appended batch can be written, and the extended log is consistent again. */
  lemma AppendKeepsConsistent(log: Log, stream: Uuid, expected: ExpectedVersion, at: u64, proposed: seq<ProposedEvent>)
    requires Consistent(log) && Fits(log, stream, proposed)
    requires 0 < |proposed| < 0x1_0000_0000
    requires Append(log, stream, expected, at, proposed).Ok?
    ensures var batch := Append(log, stream, expected, at, proposed).value;
            && Recovery.WritableBatch(batch)
            && |batch| == |proposed|
            && AllOf(batch, stream)
            && Consistent(Extended(log, stream, batch))
  {
    hide BuildBatch, IndexOf;
    var batch := Append(log, stream, expected, at, proposed).value;
    var version := |Entry(log.streams, stream)|;
    BuildBatchExact(proposed, stream, version, |log.events|, at);
    ConsistentFits(log, stream, proposed);
    BulkIndexIsRebuilt(log.events, stream, batch);
    BatchWellPositioned(log.events, stream, batch);
  }

  lemma BatchWellPositioned(events: seq<RecordedEvent>, stream: Uuid, batch: seq<RecordedEvent>)
    requires WellPositioned(events)
    requires forall i | 0 <= i < |batch| ::
               && batch[i].streamId == stream
               && batch[i].globalPosition == |events| + i
               && batch[i].streamVersion == |Project(events, stream)| + i
    ensures WellPositioned(events + batch)
  {
    var all := events + batch;
    forall i | 0 <= i < |all|
      ensures all[i].globalPosition == i
      ensures all[i].streamVersion == |Project(all[..i], all[i].streamId)|
    {
      if i < |events| {
        assert all[..i] == events[..i];
      } else {
        var k := i - |events|;
        assert all[..i] == events + batch[..k];
        ProjectConcat(events, batch[..k], stream);
        ProjectOwn(batch[..k], stream, stream);
      }
    }
  }
}
