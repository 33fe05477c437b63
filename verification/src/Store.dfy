/** The storage engine: the log file, the shared in-memory log, `open`, `append` and reads, updated in place. */
module Store {
  import opened Bytes
  import opened Types
  import opened Codec
  import opened Recovery
  import opened Index
  import opened Appending
  import Crc32

  /** The file at the store's path: its bytes, and how many of them the last `sync_all` made durable. */
  class Disk {
    var present: bool
    var bytes: seq<byte>
    var synced: nat
  }

  /** The shared in-memory log, behind the `RwLock` in the source. */
  class EventLog {
    var events: seq<RecordedEvent>
    var streams: map<Uuid, seq<u64>>

    constructor (events: seq<RecordedEvent>, streams: map<Uuid, seq<u64>>)
      ensures View() == Log(events, streams)
    {
      this.events, this.streams := events, streams;
    }

    function View(): Log
      reads this
    {
      Log(events, streams)
    }
  }

  method HasValidBatchAfter(data: seq<byte>, start: nat) returns (found: bool)
    requires start < |data|
    ensures found == HeaderFollows(data[start..])
  {
    hide DecodeBatchHeader;
    var rest := data[start..];
    for probe := start + 1 to |data|
      invariant forall k | 1 <= k < probe - start :: !HeaderAt(rest, k)
    {
      assert rest[probe - start..] == data[probe..];
      if DecodeBatchHeader(data[probe..]).Complete? {
        assert HeaderAt(rest, probe - start);
        return true;
      }
    }
    return false;
  }

  /** The records decoded so far, in front of what decoding the rest gives. */
  function PrependRecords(events: seq<RecordedEvent>, n: nat,
                          r: Decoded<seq<RecordedEvent>>): Decoded<seq<RecordedEvent>> {
    match r
    case Complete(more, k) => Complete(events + more, n + k)
    case Incomplete => Incomplete
    case Corrupt => Corrupt
  }

  /** Step 2 of the recovery loop: decode `count` records one behind the other, stopping at the first that fails. */
  method DecodeRecords(data: seq<byte>, start: nat, count: nat) returns (r: Decoded<seq<RecordedEvent>>)
    requires start <= |data|
    ensures r == ParseRecords(count, data[start..])
  {
    hide DecodeRecord, ParseRecords;
    var offset, events := start, [];
    RecordsEnds(data, start, count);
    for i := 0 to count
      invariant start <= offset <= |data|
      invariant ParseRecords(count, data[start..])
                == PrependRecords(events, offset - start, ParseRecords(count - i, data[offset..]))
    {
      RecordsStep(data, start, offset, count - i, events);
      match DecodeRecord(data[offset..]) {
        case Incomplete => return Incomplete;
        case Corrupt => return Corrupt;
        case Complete(e, n) => events, offset := events + [e], offset + n;
      }
    }
    RecordsEnds(data, offset, count);
    assert events + [] == events;
    return Complete(events, offset - start);
  }

  /** The record loop before its first and after its last record. */
  lemma RecordsEnds(data: seq<byte>, start: nat, count: nat)
    requires start <= |data|
    ensures PrependRecords([], 0, ParseRecords(count, data[start..])) == ParseRecords(count, data[start..])
    ensures ParseRecords(0, data[start..]) == Complete([], 0)
  {
    hide DecodeRecord;
    var r := ParseRecords(count, data[start..]);
    assert r.Complete? ==> [] + r.value == r.value;
  }

  lemma RecordsStep(data: seq<byte>, start: nat, offset: nat, count: nat, events: seq<RecordedEvent>)
    requires start <= offset <= |data| && count > 0
    ensures var r := PrependRecords(events, offset - start, ParseRecords(count, data[offset..]));
            match DecodeRecord(data[offset..])
            case Incomplete => r == Incomplete
            case Corrupt => r == Corrupt
            case Complete(e, n) =>
              && offset + n <= |data|
              && r == PrependRecords(events + [e], offset + n - start, ParseRecords(count - 1, data[offset + n..]))
  {
    hide DecodeRecord;
    if DecodeRecord(data[offset..]).Complete? {
      var Complete(e, n) := DecodeRecord(data[offset..]);
      assert data[offset..][n..] == data[offset + n..];
      var rest := ParseRecords(count - 1, data[offset + n..]);
      assert rest.Complete? ==> events + ([e] + rest.value) == events + [e] + rest.value;
    }
  }

  /** The file holds exactly these batches, reopening it would cut nothing, and memory holds their events and index. */
  ghost predicate Holds(data: seq<byte>, log: Log, batches: seq<seq<RecordedEvent>>) {
    && OpenFile(data) == Ok((batches, |data|))
    && log.events == Flatten(batches)
    && Indexed(log)
  }

  class Store {
    const disk: Disk
    const log: EventLog

    constructor (disk: Disk, log: EventLog)
      ensures this.disk == disk && this.log == log
    {
      this.disk, this.log := disk, log;
    }

    ghost predicate Represents(batches: seq<seq<RecordedEvent>>)
      reads disk, log
    {
      disk.present && Holds(disk.bytes, log.View(), batches)
    }

    /**
     * `Store::append`. A rejected request changes nothing; an accepted one appends its envelope, syncs,
     * and only then extends the log. Whatever batches the store represented, it represents them and the new one.
     */
    method Append(stream: Uuid, expected: ExpectedVersion, at: u64, proposed: seq<ProposedEvent>)
      returns (r: Result<seq<RecordedEvent>>)
      requires 0 < |proposed| < 0x1_0000_0000
      requires Fits(log.View(), stream, proposed)
      modifies disk, log
      ensures r == Appending.Append(old(log.View()), stream, expected, at, proposed)
      ensures Honours(r, old(log.View()), stream, expected, at, proposed)
      ensures r.Err? ==> unchanged(disk) && unchanged(log)
      ensures r.Ok? ==> disk.bytes == old(disk.bytes) + BatchBytes(r.value) && disk.synced == |disk.bytes|
      ensures r.Ok? ==> log.View() == Extended(old(log.View()), stream, r.value)
      ensures r.Ok? ==> forall batches | old(Represents(batches)) :: Represents(batches + [r.value])
    {
      hide BuildBatch, BatchBytes, Holds, WritableBatch, FirstPosition, Honours;
      AppendHonours(log.View(), stream, expected, at, proposed);
      var entry := Entry(log.streams, stream);
      var matches := CheckVersion(log.streams, stream, expected);
      if !matches {
        return Err(WrongExpectedVersion);
      }
      var first := |log.events|;
      var built, encoded := BuildRecords(proposed, stream, |entry|, first, at);
      if built.Err? {
        return built;
      }
      var recorded := built.value;
      BuiltIsWritable(proposed, stream, |entry|, first, at);
      var envelope := Envelope(recorded, first, encoded);
      forall batches | Holds(disk.bytes, log.View(), batches)
        ensures Holds(disk.bytes + envelope, Extended(log.View(), stream, recorded), batches + [recorded])
      {
        WholeBatchAdded(disk.bytes, log.View(), batches, stream, recorded);
      }
      disk.bytes := disk.bytes + envelope;
      disk.synced := |disk.bytes|;
      log.streams := PushBatch(log.streams, stream, recorded);
      log.events := log.events + recorded;
      r := Ok(recorded);
    }
  }

  /** Step 1 of `append`: the optimistic concurrency check. */
  method CheckVersion(streams: map<Uuid, seq<u64>>, stream: Uuid, expected: ExpectedVersion) returns (matches: bool)
    ensures matches == VersionMatches(streams, stream, expected)
    ensures (stream in streams ==> streams[stream] != []) ==> matches == Expected(expected, |Entry(streams, stream)|)
  {
    match expected {
      case Any =>
      case NoStream =>
        if stream in streams {
          return false;
        }
      case Exact(n) =>
        if stream !in streams || |streams[stream]| - 1 != n {
          return false;
        }
    }
    return true;
  }

  /**
   * What a request can rely on: it fails for its version exactly when the stream has not the expected number of events,
   * and what is recorded is what was proposed, next in the stream and in the log.
   */
  ghost predicate Honours(r: Result<seq<RecordedEvent>>, log: Log, stream: Uuid, expected: ExpectedVersion, at: u64,
                          proposed: seq<ProposedEvent>) {
    && (Consistent(log) ==> (r == Err(WrongExpectedVersion) <==> !Expected(expected, |Project(log.events, stream)|)))
    && (r.Ok? ==>
        && |r.value| == |proposed|
        && forall i | 0 <= i < |proposed| ::
             Stores(r.value[i], proposed[i], stream, |Entry(log.streams, stream)| + i, |log.events| + i, at))
  }

  lemma AppendHonours(log: Log, stream: Uuid, expected: ExpectedVersion, at: u64, proposed: seq<ProposedEvent>)
    requires Fits(log, stream, proposed)
    ensures Honours(Appending.Append(log, stream, expected, at, proposed), log, stream, expected, at, proposed)
  {
    hide BuildBatch, Consistent, Project, Stores;
    BuildBatchExact(proposed, stream, |Entry(log.streams, stream)|, |log.events|, at);
    if Consistent(log) {
      AppendExact(log, stream, expected, at, proposed);
    }
  }

  lemma BuiltIsWritable(proposed: seq<ProposedEvent>, stream: Uuid, version: nat, first: nat, at: u64)
    requires version + |proposed| <= VEC_LIMIT && first + |proposed| <= VEC_LIMIT
    requires 0 < |proposed| < 0x1_0000_0000 && BuildBatch(proposed, stream, version, first, at).Ok?
    ensures var batch := BuildBatch(proposed, stream, version, first, at).value;
            WritableBatch(batch) && AllOf(batch, stream) && FirstPosition(batch) == first
  {
    hide BuildBatch, EncodedSize;
    BuildBatchExact(proposed, stream, version, first, at);
  }

  lemma WholeBatchAdded(data: seq<byte>, log: Log, batches: seq<seq<RecordedEvent>>, stream: Uuid,
                        batch: seq<RecordedEvent>)
    requires Holds(data, log, batches)
    requires WritableBatch(batch) && AllOf(batch, stream)
    ensures Holds(data + BatchBytes(batch), Extended(log, stream, batch), batches + [batch])
  {
    hide OpenFile, BatchBytes, IndexOf;
    var envelope := BatchBytes(batch);
    assert envelope[..|envelope|] == envelope;
    CrashAtomicity(data, batches, batch, |envelope|);
    FlattenAppend(batches, [batch]);
    assert Flatten([batch]) == batch;
    BulkIndexIsRebuilt(log.events, stream, batch);
  }

  /** Step 2 of `append`: record, validate and encode the proposed events in order. */
  method BuildRecords(proposed: seq<ProposedEvent>, stream: Uuid, version: nat, first: nat, at: u64)
    returns (r: Result<seq<RecordedEvent>>, encoded: seq<byte>)
    requires version + |proposed| <= VEC_LIMIT && first + |proposed| <= VEC_LIMIT
    ensures r == BuildBatch(proposed, stream, version, first, at)
    ensures r.Ok? ==> encoded == RecordsBytes(r.value)
  {
    hide RecordBytes, RecordsBytes, BuildBatch;
    ghost var all := BuildBatch(proposed, stream, version, first, at);
    BuildEnds(proposed, stream, version, first, at);
    var recorded := [];
    encoded := [];
    for i := 0 to |proposed|
      invariant |recorded| == i && encoded == RecordsBytes(recorded)
      invariant all == PrependBatch(recorded, BuildBatch(proposed[i..], stream, version + i, first + i, at))
    {
      BuildStep(proposed, i, stream, version, first, at, recorded);
      var p := proposed[i];
      if p.eventType == [] || |p.eventType| > MAX_EVENT_TYPE_LEN {
        return Err(InvalidArgument), encoded;
      }
      var e := Record(p, stream, version + i, first + i, at);
      var bytes := RecordBytes(e);
      if |bytes| > MAX_EVENT_SIZE {
        return Err(EventTooLarge(|bytes|)), encoded;
      }
      RecordsBytesAppend(recorded, e);
      encoded, recorded := encoded + bytes, recorded + [e];
    }
    assert recorded + [] == recorded;
    r := Ok(recorded);
  }

  /** The loop of `append` before its first and after its last event. */
  lemma BuildEnds(proposed: seq<ProposedEvent>, stream: Uuid, version: nat, first: nat, at: u64)
    requires version + |proposed| <= VEC_LIMIT && first + |proposed| <= VEC_LIMIT
    ensures RecordsBytes([]) == []
    ensures BuildBatch(proposed, stream, version, first, at)
            == PrependBatch([], BuildBatch(proposed[0..], stream, version, first, at))
    ensures BuildBatch(proposed[|proposed|..], stream, version + |proposed|, first + |proposed|, at) == Ok([])
  {
    hide RecordBytes;
    assert proposed[0..] == proposed && proposed[|proposed|..] == [];
    var all := BuildBatch(proposed, stream, version, first, at);
    assert all.Ok? ==> [] + all.value == all.value;
  }

  lemma BuildStep(proposed: seq<ProposedEvent>, i: nat, stream: Uuid, version: nat, first: nat, at: u64,
                  recorded: seq<RecordedEvent>)
    requires i < |proposed| && version + |proposed| <= VEC_LIMIT && first + |proposed| <= VEC_LIMIT
    ensures var p, e := proposed[i], Record(proposed[i], stream, version + i, first + i, at);
            PrependBatch(recorded, BuildBatch(proposed[i..], stream, version + i, first + i, at))
            == if p.eventType == [] || |p.eventType| > MAX_EVENT_TYPE_LEN then Err(InvalidArgument)
               else if |RecordBytes(e)| > MAX_EVENT_SIZE then Err(EventTooLarge(|RecordBytes(e)|))
               else PrependBatch(recorded + [e],
                                 BuildBatch(proposed[i + 1..], stream, version + i + 1, first + i + 1, at))
  {
    hide RecordBytes;
    var e := Record(proposed[i], stream, version + i, first + i, at);
    assert proposed[i..][1..] == proposed[i + 1..];
    var rest := BuildBatch(proposed[i + 1..], stream, version + i + 1, first + i + 1, at);
    if rest.Ok? {
      assert recorded + ([e] + rest.value) == recorded + [e] + rest.value;
    }
  }

  /** Step 3 of `append`: the envelope, with a checksum hashed incrementally over header and records. */
  method Envelope(recorded: seq<RecordedEvent>, first: u64, encoded: seq<byte>) returns (bytes: seq<byte>)
    requires first == FirstPosition(recorded) && encoded == RecordsBytes(recorded)
    ensures bytes == BatchBytes(recorded)
  {
    hide BatchHeaderBytes, BatchFooterBytes, RecordsBytes, Crc32.Update, Crc32.Finalize;
    var header := BatchHeaderBytes(|recorded|, first);
    var hasher := Crc32.ONES;
    hasher := Crc32.Update(hasher, header);
    hasher := Crc32.Update(hasher, encoded);
    var footer := BatchFooterBytes(Crc32.Finalize(hasher));
    Crc32.UpdateConcat(Crc32.ONES, header, encoded);
    bytes := header + encoded + footer;
  }

  function PrependBatch(events: seq<RecordedEvent>, r: Result<seq<RecordedEvent>>): Result<seq<RecordedEvent>> {
    match r
    case Ok(more) => Ok(events + more)
    case Err(e) => Err(e)
  }

  lemma {:induction false} RecordsBytesAppend(events: seq<RecordedEvent>, e: RecordedEvent)
    ensures RecordsBytes(events + [e]) == RecordsBytes(events) + RecordBytes(e)
  {
    hide RecordBytes;
    if events == [] {
      assert (events + [e])[1..] == [];
    } else {
      assert (events + [e])[1..] == events[1..] + [e];
      RecordsBytesAppend(events[1..], e);
    }
  }

  /** Steps 1 to 4 of the recovery loop: header, records, footer, batch checksum. */
  method ReadBatch(data: seq<byte>, start: nat) returns (r: BatchResult)
    requires start <= |data|
    ensures r == ParseBatch(data[start..])
  {
    hide DecodeBatchHeader, DecodeBatchFooter, ParseRecords, Crc32.Hash;
    ghost var rest := data[start..];
    match DecodeBatchHeader(data[start..]) {
      case Incomplete => return Flawed(HeaderIncomplete);
      case Corrupt => return BadMagic;
      case Complete(header, n) =>
        assert n == 16 && n <= |rest| by { HeaderFits(rest); }
        assert rest[n..] == data[start + n..];
        var records := DecodeRecords(data, start + n, header.recordCount);
        match records {
          case Incomplete => return Flawed(RecordIncomplete);
          case Corrupt => return Flawed(RecordCorrupt);
          case Complete(events, k) =>
            var end := start + n + k;
            assert rest[n + k..] == data[end..] && rest[..n + k] == data[start..end];
            match DecodeBatchFooter(data[end..]) {
              case Incomplete => return Flawed(FooterIncomplete);
              case Corrupt => return Flawed(FooterCorrupt);
              case Complete(crc, m) =>
                if crc != Crc32.Hash(data[start..end]) {
                  return Flawed(CrcMismatch);
                }
                return Batch(events, n + k + m);
            }
        }
    }
  }

  lemma HeaderFits(rest: seq<byte>)
    requires DecodeBatchHeader(rest).Complete?
    ensures DecodeBatchHeader(rest).consumed == 16 <= |rest|
  {}

  /** Step 5 of the recovery loop: push each event of a valid batch to the log and to its stream's list. */
  method Commit(events: seq<RecordedEvent>, streams: map<Uuid, seq<u64>>, batch: seq<RecordedEvent>)
    returns (events': seq<RecordedEvent>, streams': map<Uuid, seq<u64>>)
    requires streams == IndexOf(events)
    ensures events' == events + batch && streams' == IndexOf(events')
  {
    hide IndexOf, Push;
    events', streams' := events, streams;
    for i := 0 to |batch|
      invariant events' == events + batch[..i] && streams' == IndexOf(events')
    {
      IndexStep(events', batch[i]);
      streams' := Push(streams', batch[i].streamId, batch[i].globalPosition);
      events' := events' + [batch[i]];
    }
  }

  lemma IndexStep(events: seq<RecordedEvent>, e: RecordedEvent)
    ensures IndexOf(events + [e]) == Push(IndexOf(events), e.streamId, e.globalPosition)
  {
    assert (events + [e])[..|events|] == events;
  }

  /** The recovery loop before its first batch and at the end of the file. */
  lemma ScanEnds(rest: seq<byte>)
    ensures Prepend([], 0, Scan(rest)) == Scan(rest)
    ensures Scan([]) == Recovered([], 0)
    ensures Flatten([]) == [] && IndexOf([]) == map[]
  {
    hide ParseBatch;
    PrependNone(Scan(rest));
  }

  /** Moving an accepted batch from the bytes still to scan to the batches done. */
  lemma ScanBatch(data: seq<byte>, offset: nat, done: seq<seq<RecordedEvent>>)
    requires 8 <= offset < |data| && ParseBatch(data[offset..]).Batch?
    ensures var Batch(batch, n) := ParseBatch(data[offset..]);
            && offset + n <= |data| && n > 0
            && Flatten(done + [batch]) == Flatten(done) + batch
            && Prepend(done, offset - 8, Scan(data[offset..]))
               == Prepend(done + [batch], offset + n - 8, Scan(data[offset + n..]))
  {
    hide ParseBatch, Scan;
    var Batch(batch, n) := ParseBatch(data[offset..]);
    assert data[offset..][n..] == data[offset + n..];
    ScanStep(data[offset..]);
    PrependTwice(done, offset - 8, [batch], n, Scan(data[offset + n..]));
    FlattenAppend(done, [batch]);
    assert Flatten([batch]) == batch;
  }

  /**
   * `Store::open`. A missing file is created empty. An existing one is scanned batch by batch: the result,
   * the bytes kept and the rebuilt index are those of `OpenFile`, and the store represents what it recovered.
   */
  method Open(disk: Disk) returns (r: Result<Store>)
    modifies disk
    ensures !old(disk.present) ==>
              && r.Ok? && r.value.Represents([])
              && disk.bytes == FileHeaderBytes() && disk.synced == |disk.bytes|
    ensures old(disk.present) && OpenFile(old(disk.bytes)).Err? ==>
              r == Err(OpenFile(old(disk.bytes)).error) && unchanged(disk)
    ensures old(disk.present) && OpenFile(old(disk.bytes)).Ok? ==>
              var (batches, kept) := OpenFile(old(disk.bytes)).value;
              && r.Ok? && r.value.Represents(batches)
              && disk.bytes == old(disk.bytes)[..kept]
              && disk.synced == (if kept < |old(disk.bytes)| then kept else old(disk.synced))
    ensures r.Ok? ==> fresh(r.value) && fresh(r.value.log) && r.value.disk == disk
  {
    hide DecodeFileHeader, FileHeaderBytes, Scan, Flatten, IndexOf;
    if !disk.present {
      disk.present, disk.bytes := true, FileHeaderBytes();
      disk.synced := |disk.bytes|;
      EmptyFile();
      var log := new EventLog([], map[]);
      var store := new Store(disk, log);
      return Ok(store);
    }
    var data := disk.bytes;
    if |data| < 8 {
      return Err(InvalidHeader);
    }
    match DecodeFileHeader(data[..8]) {
      case Err(e) => return Err(e);
      case Ok(_) =>
    }
    var scanned := ScanFile(data);
    if scanned.Err? {
      return Err(scanned.error);
    }
    var (view, kept) := scanned.value;
    OpenIdempotent(data);
    if kept < |data| {
      disk.bytes := data[..kept];
      disk.synced := |disk.bytes|;
    }
    assert data[..|data|] == data;
    var log := new EventLog(view.events, view.streams);
    var store := new Store(disk, log);
    return Ok(store);
  }

  lemma EmptyFile()
    ensures OpenFile(FileHeaderBytes()) == Ok(([], |FileHeaderBytes()|))
    ensures Flatten([]) == [] && IndexOf([]) == map[]
  {
    hide DecodeFileHeader, FileHeaderBytes;
    FileHeaderRoundTrip();
    var file := FileHeaderBytes();
    assert file[..8] == file && file[8..] == [];
  }

  /** The recovery loop: the log rebuilt from the whole batches, and the offset where they end. */
  method ScanFile(data: seq<byte>) returns (r: Result<(Log, nat)>)
    requires |data| >= 8
    ensures match Scan(data[8..])
            case MidFileCorruption(p) => r == Err(CorruptRecord(p))
            case Recovered(batches, k) => r == Ok((Log(Flatten(batches), IndexOf(Flatten(batches))), 8 + k))
  {
    hide Scan, ParseBatch, HeaderFollows, Flatten, IndexOf;
    ScanEnds(data[8..]);
    var events: seq<RecordedEvent>, streams: map<Uuid, seq<u64>>, offset := [], map[], 8;
    ghost var done: seq<seq<RecordedEvent>> := [];
    while offset < |data|
      invariant 8 <= offset <= |data|
      invariant Scan(data[8..]) == Prepend(done, offset - 8, Scan(data[offset..]))
      invariant events == Flatten(done) && streams == IndexOf(events)
    {
      var result := ReadBatch(data, offset);
      assert done + [] == done;
      match result {
        case Batch(batch, n) =>
          ScanBatch(data, offset, done);
          events, streams := Commit(events, streams, batch);
          done, offset := done + [batch], offset + n;
        case Flawed(_) =>
          ScanStops(data[offset..]);
          return Ok((Log(events, streams), offset));
        case BadMagic =>
          ScanStops(data[offset..]);
          var later := HasValidBatchAfter(data, offset);
          if later {
            return Err(CorruptRecord(|events|));
          }
          return Ok((Log(events, streams), offset));
      }
    }
    assert data[offset..] == [] && done + [] == done;
    return Ok((Log(events, streams), offset));
  }

  lemma ScanStops(rest: seq<byte>)
    requires rest != [] && !ParseBatch(rest).Batch?
    ensures Scan(rest)
            == if ParseBatch(rest).BadMagic? && HeaderFollows(rest) then MidFileCorruption(0) else Recovered([], 0)
  {
    hide ParseBatch, HeaderFollows;
  }
}
