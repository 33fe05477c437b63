/** The in-memory event log, its per-stream index, and reads. */
module Index {
  import opened Bytes
  import opened Types

  /** `EventLog`: events by global position, and for each stream the global positions of its events. */
  datatype Log = Log(events: seq<RecordedEvent>, streams: map<Uuid, seq<u64>>)

  // ---------------------------------------------------------------- reference definitions

  /** The events of one stream, in log order: what the index speeds up. */
  function Project(events: seq<RecordedEvent>, stream: Uuid): seq<RecordedEvent> {
    if events == [] then []
    else
      var n := |events| - 1;
      Project(events[..n], stream) + (if events[n].streamId == stream then [events[n]] else [])
  }

  /**
   * Positions and versions are those of the log: event `i` is at position `i`, and its version counts its stream's
   * earlier events.
   */
  ghost predicate WellPositioned(events: seq<RecordedEvent>) {
    forall i | 0 <= i < |events| ::
      && events[i].globalPosition == i
      && events[i].streamVersion == |Project(events[..i], events[i].streamId)|
  }

  predicate AllOf(events: seq<RecordedEvent>, stream: Uuid) {
    forall i | 0 <= i < |events| :: events[i].streamId == stream
  }

  function Min(a: nat, b: nat): nat {
    if a < b then a else b
  }

  function SaturatingAdd(a: u64, b: u64): u64 {
    if a + b < 0x1_0000_0000_0000_0000 then a + b else 0xFFFF_FFFF_FFFF_FFFF
  }

  /** At most `max` items of `s` from index `from` on. */
  function Window<T>(s: seq<T>, from: nat, max: nat): seq<T> {
    s[Min(from, |s|)..Min(from + max, |s|)]
  }

  // ------------------------------------------------------------------------- the index

  function Entry(streams: map<Uuid, seq<u64>>, stream: Uuid): seq<u64> {
    if stream in streams then streams[stream] else []
  }

  /** `streams.entry(id).or_default().push(position)`. */
  function Push(streams: map<Uuid, seq<u64>>, stream: Uuid, position: u64): map<Uuid, seq<u64>> {
    streams[stream := Entry(streams, stream) + [position]]
  }

  function Positions(events: seq<RecordedEvent>): (p: seq<u64>)
    ensures |p| == |events|
  {
    seq(|events|, i requires 0 <= i < |events| => events[i].globalPosition)
  }

  /** The index `open` builds, one event at a time. */
  function IndexOf(events: seq<RecordedEvent>): map<Uuid, seq<u64>> {
    if events == [] then map[]
    else
      var n := |events| - 1;
      Push(IndexOf(events[..n]), events[n].streamId, events[n].globalPosition)
  }

  /** The index update of `append`: all positions of a batch pushed to one entry. */
  function PushBatch(streams: map<Uuid, seq<u64>>, stream: Uuid, batch: seq<RecordedEvent>): map<Uuid, seq<u64>> {
    streams[stream := Entry(streams, stream) + Positions(batch)]
  }

  // -------------------------------------------------------------------------------- reads

  function ReadAll(log: Log, from: u64, max: u64): seq<RecordedEvent> {
    var len := |log.events|;
    log.events[Min(from, len)..Min(SaturatingAdd(from, max), len)]
  }

  predicate InRange(positions: seq<u64>, len: nat) {
    forall i | 0 <= i < |positions| :: positions[i] < len
  }

  function At(events: seq<RecordedEvent>, positions: seq<u64>): (r: seq<RecordedEvent>)
    requires InRange(positions, |events|)
  {
    seq(|positions|, i requires 0 <= i < |positions| => events[positions[i]])
  }

  function ReadStream(log: Log, stream: Uuid, from: u64, max: u64): Result<seq<RecordedEvent>>
    requires InRange(Entry(log.streams, stream), |log.events|)
  {
    if stream !in log.streams then Err(StreamNotFound(stream)) else
    var positions := log.streams[stream];
    var len := |positions|;
    Ok(At(log.events, positions[Min(from, len)..Min(SaturatingAdd(from, max), len)]))
  }

  // --------------------------------------------------------------- facts about projections

  lemma {:induction false} ProjectConcat(a: seq<RecordedEvent>, b: seq<RecordedEvent>, stream: Uuid)
    ensures Project(a + b, stream) == Project(a, stream) + Project(b, stream)
    decreases |b|
  {
    if b == [] {
      assert a + b == a;
    } else {
      var n := |b| - 1;
      assert (a + b)[..|a + b| - 1] == a + b[..n];
      ProjectConcat(a, b[..n], stream);
    }
  }

  lemma {:induction false} ProjectOwn(events: seq<RecordedEvent>, stream: Uuid, other: Uuid)
    requires AllOf(events, stream)
    ensures Project(events, other) == if other == stream then events else []
  {
    if events != [] {
      var n := |events| - 1;
      var before, last := events[..n], events[n];
      ProjectOwn(before, stream, other);
      assert last.streamId == stream;
      assert events == before + [last];
    }
  }

  lemma {:induction false} ProjectSize(events: seq<RecordedEvent>, stream: Uuid)
    ensures |Project(events, stream)| <= |events|
  {
    if events != [] {
      ProjectSize(events[..|events| - 1], stream);
    }
  }

  lemma ProjectPrefix(events: seq<RecordedEvent>, i: nat, stream: Uuid)
    requires i <= |events|
    ensures Project(events[..i], stream) <= Project(events, stream)
  {
    assert events == events[..i] + events[i..];
    ProjectConcat(events[..i], events[i..], stream);
  }

  lemma ProjectStep(events: seq<RecordedEvent>, i: nat, stream: Uuid)
    requires i < |events|
    ensures Project(events[..i + 1], stream)
            == Project(events[..i], stream) + (if events[i].streamId == stream then [events[i]] else [])
  {
    assert events[..i + 1][..i] == events[..i];
  }

  /** Every event is in its stream's projection, at its version. */
  lemma ProjectAtVersion(events: seq<RecordedEvent>, i: nat)
    requires WellPositioned(events) && i < |events|
    ensures var p := Project(events, events[i].streamId);
            events[i].streamVersion < |p| && p[events[i].streamVersion] == events[i]
  {
    ProjectStep(events, i, events[i].streamId);
    ProjectPrefix(events, i + 1, events[i].streamId);
  }

  /** Item `k` of a projection is an event of the log, of that stream, with version `k`. */
  lemma {:induction false} ProjectVersions(events: seq<RecordedEvent>, stream: Uuid, k: nat)
    requires WellPositioned(events) && k < |Project(events, stream)|
    ensures var e := Project(events, stream)[k];
            e.streamId == stream && e.streamVersion == k && e.globalPosition < |events| && events[e.globalPosition] == e
  {
    var n := |events| - 1;
    var before := events[..n];
    if k < |Project(before, stream)| {
      assert forall i | 0 <= i < n :: before[..i] == events[..i];
      ProjectVersions(before, stream, k);
    }
  }

  lemma WellPositionedPrefix(events: seq<RecordedEvent>, n: nat)
    requires WellPositioned(events) && n <= |events|
    ensures WellPositioned(events[..n])
  {
    forall i | 0 <= i < n
      ensures events[..n][i].globalPosition == i
      ensures events[..n][i].streamVersion == |Project(events[..n][..i], events[..n][i].streamId)|
    {
      assert events[..n][..i] == events[..i];
    }
  }

  // ------------------------------------------------------------------- the index is a filter

  lemma PositionsConcat(a: seq<RecordedEvent>, b: seq<RecordedEvent>)
    ensures Positions(a + b) == Positions(a) + Positions(b)
  {}

  /**
   * For any events at all, the entry of a stream lists the positions of the stream's projection, and exists when
   * that is not empty.
   */
  lemma {:induction false} IndexIsProjection(events: seq<RecordedEvent>, stream: Uuid)
    ensures stream in IndexOf(events) <==> Project(events, stream) != []
    ensures Entry(IndexOf(events), stream) == Positions(Project(events, stream))
  {
    if events != [] {
      var n := |events| - 1;
      IndexIsProjection(events[..n], stream);
      PositionsConcat(Project(events[..n], stream), [events[n]]);
      assert Positions([events[n]]) == [events[n].globalPosition];
    }
  }

  /** Indexing a batch in bulk, as `append` does, gives the index recovery builds one event at a time. */
  lemma BulkIndexIsRebuilt(events: seq<RecordedEvent>, stream: Uuid, batch: seq<RecordedEvent>)
    requires batch != [] && AllOf(batch, stream)
    ensures PushBatch(IndexOf(events), stream, batch) == IndexOf(events + batch)
  {
    var bulk, rebuilt := PushBatch(IndexOf(events), stream, batch), IndexOf(events + batch);
    forall s: Uuid
      ensures s in bulk <==> s in rebuilt
      ensures s in bulk ==> bulk[s] == rebuilt[s]
    {
      IndexIsProjection(events, s);
      IndexIsProjection(events + batch, s);
      ProjectConcat(events, batch, s);
      ProjectOwn(batch, stream, s);
      PositionsConcat(Project(events, s), Project(batch, s));
    }
    assert bulk.Keys == rebuilt.Keys;
  }

  /** The index is consistent with the events. */
  ghost predicate Indexed(log: Log) {
    log.streams == IndexOf(log.events)
  }

  lemma EntryInRange(log: Log, stream: Uuid)
    requires Indexed(log) && WellPositioned(log.events)
    ensures InRange(Entry(log.streams, stream), |log.events|)
  {
    var projection := Project(log.events, stream);
    IndexIsProjection(log.events, stream);
    forall k | 0 <= k < |projection|
      ensures Positions(projection)[k] < |log.events|
    {
      ProjectVersions(log.events, stream, k);
    }
  }

  /** `read_stream` is the saturating window of the global log filtered to the stream. */
  lemma ReadStreamIsWindow(log: Log, stream: Uuid, from: u64, max: u64)
    requires Indexed(log) && WellPositioned(log.events) && |log.events| < 0x1_0000_0000_0000_0000
    ensures InRange(Entry(log.streams, stream), |log.events|)
    ensures var projection := Project(log.events, stream);
            ReadStream(log, stream, from, max)
            == if projection == [] then Err(StreamNotFound(stream)) else Ok(Window(projection, from, max))
  {
    hide Project, IndexOf, At;
    EntryInRange(log, stream);
    IndexIsProjection(log.events, stream);
    ProjectSize(log.events, stream);
    var len := |Project(log.events, stream)|;
    AtProjection(log.events, stream, Min(from, len), Min(SaturatingAdd(from, max), len));
  }

  /** Looking positions of a stream up gives back the stream's events. */
  lemma AtProjection(events: seq<RecordedEvent>, stream: Uuid, i: nat, j: nat)
    requires WellPositioned(events) && i <= j <= |Project(events, stream)|
    ensures var positions := Positions(Project(events, stream))[i..j];
            InRange(positions, |events|) && At(events, positions) == Project(events, stream)[i..j]
  {
    hide Project;
    var projection := Project(events, stream);
    forall k | i <= k < j
      ensures Positions(projection)[k] < |events| && events[Positions(projection)[k]] == projection[k]
    {
      ProjectVersions(events, stream, k);
    }
  }

  lemma ReadAllIsWindow(log: Log, from: u64, max: u64)
    requires |log.events| < 0x1_0000_0000_0000_0000
    ensures ReadAll(log, from, max) == Window(log.events, from, max)
  {}

  /**
   * The stream lists partition the positions: each position is in its own stream's list, at its version, and
   * nowhere else.
   */
  lemma StreamsPartitionPositions(events: seq<RecordedEvent>, i: nat, stream: Uuid, k: nat)
    requires WellPositioned(events) && i < |events|
    ensures k < |Entry(IndexOf(events), stream)| && Entry(IndexOf(events), stream)[k] == i
            <==> stream == events[i].streamId && k == events[i].streamVersion
  {
    IndexIsProjection(events, stream);
    ProjectAtVersion(events, i);
    if k < |Project(events, stream)| {
      ProjectVersions(events, stream, k);
    }
  }
}
