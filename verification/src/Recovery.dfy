/** Batch envelopes and crash recovery: the loop of `Store::open` as a function of the bytes that remain. */
module Recovery {
  import opened Bytes
  import opened Types
  import opened Codec
  import Crc32

  /** Why a batch was not accepted. Every flaw truncates the file at the start of the batch. */
  datatype Flaw = HeaderIncomplete | RecordIncomplete | RecordCorrupt | FooterIncomplete | FooterCorrupt | CrcMismatch

  datatype BatchResult =
    | Batch(events: seq<RecordedEvent>, consumed: nat)
    | Flawed(flaw: Flaw)
    | BadMagic

  /** What scanning finds: whole batches and how many bytes they take, or corruption before position `position`. */
  datatype ScanResult =
    | Recovered(batches: seq<seq<RecordedEvent>>, kept: nat)
    | MidFileCorruption(position: nat)

  // ------------------------------------------------------------- the batch on disk

  function RecordsBytes(events: seq<RecordedEvent>): seq<byte> {
    if events == [] then [] else RecordBytes(events[0]) + RecordsBytes(events[1..])
  }

  function FirstPosition(events: seq<RecordedEvent>): u64 {
    if events == [] then 0 else events[0].globalPosition
  }

  function BatchHeaderFor(events: seq<RecordedEvent>): (s: seq<byte>)
    ensures |s| == BATCH_HEADER_SIZE
  {
    BatchHeaderBytes(|events|, FirstPosition(events))
  }

  /** The envelope `append` writes: header, records, and a footer with the CRC of both. */
  function BatchBytes(events: seq<RecordedEvent>): seq<byte> {
    var body := BatchHeaderFor(events) + RecordsBytes(events);
    body + BatchFooterBytes(Crc32.Hash(body))
  }

  lemma BatchSize(events: seq<RecordedEvent>)
    ensures |BatchBytes(events)| == 24 + |RecordsBytes(events)|
  {
    hide RecordsBytes, Crc32.Hash;
  }

  predicate WritableBatch(events: seq<RecordedEvent>) {
    0 < |events| < 0x1_0000_0000 && forall e <- events :: Storable(e)
  }

  function BatchesBytes(batches: seq<seq<RecordedEvent>>): seq<byte> {
    if batches == [] then [] else BatchBytes(batches[0]) + BatchesBytes(batches[1..])
  }

  /** A log file holding exactly these batches. */
  function FileBytes(batches: seq<seq<RecordedEvent>>): seq<byte> {
    FileHeaderBytes() + BatchesBytes(batches)
  }

  function Flatten(batches: seq<seq<RecordedEvent>>): seq<RecordedEvent> {
    if batches == [] then [] else batches[0] + Flatten(batches[1..])
  }

  // ------------------------------------------------------------------- scanning

  function ParseRecords(count: nat, rest: seq<byte>): (r: Decoded<seq<RecordedEvent>>)
    ensures r.Complete? ==> r.consumed <= |rest| && |r.value| == count
  {
    if count == 0 then Complete([], 0) else
    match DecodeRecord(rest)
    case Incomplete => Incomplete
    case Corrupt => Corrupt
    case Complete(e, n) =>
      match ParseRecords(count - 1, rest[n..])
      case Incomplete => Incomplete
      case Corrupt => Corrupt
      case Complete(events, k) => Complete([e] + events, n + k)
  }

  function CloseBatch(events: seq<RecordedEvent>, rest: seq<byte>, end: nat): (r: BatchResult)
    requires end <= |rest|
    ensures r.Batch? ==> r == Batch(events, end + BATCH_FOOTER_SIZE) && r.consumed <= |rest|
  {
    match DecodeBatchFooter(rest[end..])
    case Incomplete => Flawed(FooterIncomplete)
    case Corrupt => Flawed(FooterCorrupt)
    case Complete(crc, n) =>
      if crc != Crc32.Hash(rest[..end]) then Flawed(CrcMismatch) else Batch(events, end + n)
  }

  /** One iteration of the recovery loop, on the bytes from the batch start to the end of the file. */
  function ParseBatch(rest: seq<byte>): (r: BatchResult)
    ensures r.Batch? ==> 24 <= r.consumed <= |rest|
  {
    match DecodeBatchHeader(rest)
    case Incomplete => Flawed(HeaderIncomplete)
    case Corrupt => BadMagic
    case Complete(header, n) =>
      match ParseRecords(header.recordCount, rest[n..])
      case Incomplete => Flawed(RecordIncomplete)
      case Corrupt => Flawed(RecordCorrupt)
      case Complete(events, k) => CloseBatch(events, rest, n + k)
  }

  predicate HeaderAt(rest: seq<byte>, probe: nat) {
    probe < |rest| && DecodeBatchHeader(rest[probe..]).Complete?
  }

  /** Some later offset looks like a batch header. */
  predicate HeaderFollows(rest: seq<byte>) {
    exists probe | 1 <= probe < |rest| :: HeaderAt(rest, probe)
  }

  function Scan(rest: seq<byte>): (r: ScanResult)
    ensures r.Recovered? ==> r.kept <= |rest|
    decreases |rest|
  {
    if rest == [] then Recovered([], 0) else
    match ParseBatch(rest)
    case Flawed(_) => Recovered([], 0)
    case BadMagic => if HeaderFollows(rest) then MidFileCorruption(0) else Recovered([], 0)
    case Batch(events, n) =>
      match Scan(rest[n..])
      case MidFileCorruption(p) => MidFileCorruption(|events| + p)
      case Recovered(batches, k) => Recovered([events] + batches, n + k)
  }

  /** `Store::open` on an existing file: the batches recovered and the length the file is cut to. */
  function OpenFile(data: seq<byte>): (r: Result<(seq<seq<RecordedEvent>>, nat)>)
    ensures r.Ok? ==> 8 <= r.value.1 <= |data|
  {
    if |data| < 8 then Err(InvalidHeader) else
    match DecodeFileHeader(data[..8])
    case Err(e) => Err(e)
    case Ok(_) =>
      match Scan(data[8..])
      case MidFileCorruption(p) => Err(CorruptRecord(p))
      case Recovered(batches, k) => Ok((batches, 8 + k))
  }

  // ----------------------------------------------------- what was written is recovered

  lemma {:induction false} ParseRecordsWritten(events: seq<RecordedEvent>, rest: seq<byte>)
    requires forall e <- events :: Storable(e)
    ensures ParseRecords(|events|, RecordsBytes(events) + rest) == Complete(events, |RecordsBytes(events)|)
  {
    hide DecodeRecord, RecordBytes, Storable;
    if events == [] {
    } else {
      var head, tail := RecordBytes(events[0]), RecordsBytes(events[1..]);
      assert RecordsBytes(events) + rest == head + (tail + rest);
      RecordRoundTrip(events[0], tail + rest);
      assert (head + (tail + rest))[|head|..] == tail + rest;
      ParseRecordsWritten(events[1..], rest);
      assert events == [events[0]] + events[1..];
    }
  }

  lemma {:induction false} ParseRecordsCut(events: seq<RecordedEvent>, n: nat)
    requires forall e <- events :: Storable(e)
    requires n < |RecordsBytes(events)|
    ensures ParseRecords(|events|, RecordsBytes(events)[..n]) == Incomplete
  {
    hide DecodeRecord, RecordBytes;
    var head, tail := RecordBytes(events[0]), RecordsBytes(events[1..]);
    var cut := RecordsBytes(events)[..n];
    if n < |head| {
      assert cut == head[..n];
      RecordPrefixIncomplete(events[0], n);
    } else {
      assert cut == head + tail[..n - |head|];
      RecordRoundTrip(events[0], tail[..n - |head|]);
      assert cut[|head|..] == tail[..n - |head|];
      ParseRecordsCut(events[1..], n - |head|);
    }
  }

  lemma BatchParts(events: seq<RecordedEvent>, rest: seq<byte>)
    requires WritableBatch(events)
    ensures var data := BatchBytes(events) + rest;
            var end := 16 + |RecordsBytes(events)|;
            && DecodeBatchHeader(data) == Complete(BatchHeader(|events|, FirstPosition(events)), 16)
            && data[..end] == BatchHeaderFor(events) + RecordsBytes(events)
            && data[16..] == RecordsBytes(events) + (BatchFooterBytes(Crc32.Hash(data[..end])) + rest)
            && data[end..] == BatchFooterBytes(Crc32.Hash(data[..end])) + rest
  {
    hide DecodeBatchHeader, BatchHeaderBytes, RecordsBytes, BatchFooterBytes, Crc32.Hash;
    var header, records := BatchHeaderFor(events), RecordsBytes(events);
    var footer := BatchFooterBytes(Crc32.Hash(header + records));
    var data := BatchBytes(events) + rest;
    assert data == header + (records + (footer + rest));
    BatchHeaderRoundTrip(|events|, FirstPosition(events), records + (footer + rest));
  }

  /** A whole batch is accepted, whatever follows it. */
  lemma ParseBatchWritten(events: seq<RecordedEvent>, rest: seq<byte>)
    requires WritableBatch(events)
    ensures ParseBatch(BatchBytes(events) + rest) == Batch(events, |BatchBytes(events)|)
  {
    hide DecodeBatchHeader, DecodeBatchFooter, BatchHeaderFor, RecordsBytes, BatchFooterBytes, ParseRecords,
         Crc32.Hash;
    BatchSize(events);
    var data := BatchBytes(events) + rest;
    var end := 16 + |RecordsBytes(events)|;
    BatchParts(events, rest);
    var crc := Crc32.Hash(data[..end]);
    ParseRecordsWritten(events, BatchFooterBytes(crc) + rest);
    BatchFooterRoundTrip(crc, rest);
  }

  /** Every strict prefix of a batch is incomplete: at its header, at a record or at its footer. */
  lemma ParseBatchCut(events: seq<RecordedEvent>, n: nat)
    requires WritableBatch(events)
    requires n < |BatchBytes(events)|
    ensures ParseBatch(BatchBytes(events)[..n])
            == Flawed(if n < 16 then HeaderIncomplete
                      else if n < 16 + |RecordsBytes(events)| then RecordIncomplete
                      else FooterIncomplete)
  {
    hide DecodeRecord, RecordsBytes, ParseRecords, Crc32.Hash;
    BatchSize(events);
    var header, records := BatchHeaderFor(events), RecordsBytes(events);
    var cut := BatchBytes(events)[..n];
    if n < 16 {
    } else if n < 16 + |records| {
      assert cut == header + records[..n - 16];
      BatchHeaderRoundTrip(|events|, FirstPosition(events), records[..n - 16]);
      assert cut[16..] == records[..n - 16];
      ParseRecordsCut(events, n - 16);
    } else {
      var part := cut[16 + |records|..];
      assert cut == header + (records + part);
      BatchHeaderRoundTrip(|events|, FirstPosition(events), records + part);
      assert cut[16..] == records + part;
      ParseRecordsWritten(events, part);
    }
  }

  // ------------------------------------------------------------------------ acceptance, in bytes

  /** The first `k` bytes are frames of these events, one behind the other. */
  ghost predicate StartsWithRecords(rest: seq<byte>, events: seq<RecordedEvent>, k: nat)
    decreases |events|
  {
    if events == [] then k == 0
    else exists n: nat | n <= k <= |rest| ::
           StartsWithRecord(rest, events[0], n) && StartsWithRecords(rest[n..], events[1..], k - n)
  }

  lemma {:induction false} ParseRecordsExact(count: nat, rest: seq<byte>, events: seq<RecordedEvent>, k: nat)
    ensures ParseRecords(count, rest) == Complete(events, k)
            <==> |events| == count && StartsWithRecords(rest, events, k)
    decreases count
  {
    hide DecodeRecord, StartsWithRecord;
    if count > 0 {
      if ParseRecords(count, rest) == Complete(events, k) {
        var Complete(e, n) := DecodeRecord(rest);
        DecodeRecordExact(rest, e, n);
        ParseRecordsExact(count - 1, rest[n..], events[1..], k - n);
      }
      if |events| == count && StartsWithRecords(rest, events, k) {
        var n: nat :| n <= k <= |rest| && StartsWithRecord(rest, events[0], n)
                      && StartsWithRecords(rest[n..], events[1..], k - n);
        DecodeRecordExact(rest, events[0], n);
        ParseRecordsExact(count - 1, rest[n..], events[1..], k - n);
        assert events == [events[0]] + events[1..];
      }
    }
  }

  /**
   * What `open` accepts as a batch, and nothing else: `EFBB`, a count, any position, as many record frames, `EFBF`, and
   * the checksum of all bytes before the footer.
   */
  lemma ParseBatchExact(rest: seq<byte>, events: seq<RecordedEvent>, n: nat)
    ensures ParseBatch(rest) == Batch(events, n)
            <==> && 24 <= n <= |rest|
                 && rest[..4] == [0x45, 0x46, 0x42, 0x42]
                 && FromLittleEndian(rest[4..8]) == |events|
                 && StartsWithRecords(rest[16..], events, n - 24)
                 && rest[n - 8..n - 4] == [0x45, 0x46, 0x42, 0x46]
                 && FromLittleEndian(rest[n - 4..n]) == Crc32.Hash(rest[..n - 8])
  {
    hide ParseRecords, StartsWithRecords, Crc32.Hash, FromLittleEndian;
    if 24 <= n <= |rest| {
      ParseRecordsExact(FromLittleEndian(rest[4..8]), rest[16..], events, n - 24);
      assert rest[n - 8..][..4] == rest[n - 8..n - 4] && rest[n - 8..][4..8] == rest[n - 4..n];
    }
  }

  // ------------------------------------------------------------ locality of acceptance

  lemma {:induction false} ParseRecordsLocal(count: nat, rest: seq<byte>, other: seq<byte>)
    requires ParseRecords(count, rest).Complete?
    requires var k := ParseRecords(count, rest).consumed; k <= |other| && other[..k] == rest[..k]
    ensures ParseRecords(count, other) == ParseRecords(count, rest)
    decreases count
  {
    hide DecodeRecord;
    if count > 0 {
      var k := ParseRecords(count, rest).consumed;
      var n := DecodeRecord(rest).consumed;
      assert other[..n] == other[..k][..n] == rest[..k][..n] == rest[..n];
      DecodeRecordLocal(rest, other);
      assert other[n..][..k - n] == other[..k][n..] == rest[..k][n..] == rest[n..][..k - n];
      ParseRecordsLocal(count - 1, rest[n..], other[n..]);
    }
  }

  /** An accepted batch depends only on its own bytes. */
  lemma ParseBatchLocal(rest: seq<byte>, other: seq<byte>)
    requires ParseBatch(rest).Batch?
    requires var n := ParseBatch(rest).consumed; n <= |other| && other[..n] == rest[..n]
    ensures ParseBatch(other) == ParseBatch(rest)
  {
    hide DecodeBatchFooter, ParseRecords, Crc32.Hash, FromLittleEndian;
    var Batch(events, n) := ParseBatch(rest);
    SameSlice(rest, other, n, 0, 4);
    SameSlice(rest, other, n, 4, 8);
    SameSlice(rest, other, n, 8, 16);
    assert other[..4] == other[0..4] && rest[..4] == rest[0..4];
    SameSlice(rest, other, n, 16, n - 8);
    assert other[16..][..n - 24] == other[16..n - 8] && rest[16..][..n - 24] == rest[16..n - 8];
    ParseRecordsLocal(DecodeBatchHeader(rest).value.recordCount, rest[16..], other[16..]);
    SameSlice(rest, other, n, 0, n - 8);
    assert other[..n - 8] == other[0..n - 8] && rest[..n - 8] == rest[0..n - 8];
    SameFooter(rest, other, n);
  }

  lemma SameSlice(s: seq<byte>, t: seq<byte>, n: nat, i: nat, j: nat)
    requires i <= j <= n <= |s| && n <= |t| && t[..n] == s[..n]
    ensures t[i..j] == s[i..j]
  {
    assert s[i..j] == s[..n][i..j] && t[i..j] == t[..n][i..j];
  }

  lemma SameFooter(s: seq<byte>, t: seq<byte>, n: nat)
    requires 8 <= n <= |s| && n <= |t| && t[..n] == s[..n]
    ensures DecodeBatchFooter(t[n - 8..]) == DecodeBatchFooter(s[n - 8..])
  {
    SameSlice(s, t, n, n - 8, n - 4);
    SameSlice(s, t, n, n - 4, n);
    assert s[n - 8..][..4] == s[n - 8..n - 4] && t[n - 8..][..4] == t[n - 8..n - 4];
    assert s[n - 8..][4..8] == s[n - 4..n] && t[n - 8..][4..8] == t[n - 4..n];
  }

  // ----------------------------------------------------------------- whole-file theorems

  function Prepend(batches: seq<seq<RecordedEvent>>, kept: nat, r: ScanResult): ScanResult {
    match r
    case Recovered(more, k) => Recovered(batches + more, kept + k)
    case MidFileCorruption(p) => MidFileCorruption(|Flatten(batches)| + p)
  }

  /** The two ways one iteration of the recovery loop goes on. */
  lemma ScanStep(rest: seq<byte>)
    ensures Scan([]) == Recovered([], 0)
    ensures ParseBatch(rest).Batch? ==>
              var Batch(events, n) := ParseBatch(rest);
              Scan(rest) == Prepend([events], n, Scan(rest[n..]))
    ensures rest != [] && ParseBatch(rest).Flawed? ==> Scan(rest) == Recovered([], 0)
  {
    hide ParseBatch;
    if ParseBatch(rest).Batch? {
      var events := ParseBatch(rest).events;
      assert Flatten([events]) == events + Flatten([events][1..]) == events + [];
    }
  }

  /** Bytes behind a clean file are scanned as if on their own: earlier batches are never lost to them. */
  lemma {:induction false} ScanExtended(rest: seq<byte>, tail: seq<byte>)
    requires Scan(rest).Recovered? && Scan(rest).kept == |rest|
    ensures Scan(rest + tail) == Prepend(Scan(rest).batches, |rest|, Scan(tail))
    decreases |rest|
  {
    hide ParseBatch, Scan;
    ScanStep(rest);
    if rest == [] {
      assert rest + tail == tail;
      PrependNone(Scan(tail));
    } else {
      FullyScanned(rest);
      var Batch(events, n) := ParseBatch(rest);
      assert (rest + tail)[..n] == rest[..n];
      ParseBatchLocal(rest, rest + tail);
      assert (rest + tail)[n..] == rest[n..] + tail;
      ScanExtended(rest[n..], tail);
      ScanStep(rest + tail);
      PrependTwice([events], n, Scan(rest[n..]).batches, |rest| - n, Scan(tail));
    }
  }

  /** A file that is kept whole starts with an accepted batch. */
  lemma FullyScanned(rest: seq<byte>)
    requires rest != [] && Scan(rest).Recovered? && Scan(rest).kept == |rest|
    ensures ParseBatch(rest).Batch?
    ensures var n := ParseBatch(rest).consumed; Scan(rest[n..]).Recovered? && Scan(rest[n..]).kept == |rest| - n
  {
    hide ParseBatch;
  }

  lemma PrependNone(r: ScanResult)
    ensures Prepend([], 0, r) == r
  {
    if r.Recovered? {
      assert [] + r.batches == r.batches;
    }
  }

  lemma PrependTwice(a: seq<seq<RecordedEvent>>, n: nat, b: seq<seq<RecordedEvent>>, m: nat, r: ScanResult)
    ensures Prepend(a, n, Prepend(b, m, r)) == Prepend(a + b, n + m, r)
  {
    FlattenAppend(a, b);
    if r.Recovered? {
      assert a + (b + r.batches) == a + b + r.batches;
    }
  }

  /** Recovery is idempotent on arbitrary bytes: what it keeps scans to the same batches, with nothing cut. */
  lemma {:induction false} ScanIdempotent(rest: seq<byte>)
    requires Scan(rest).Recovered?
    ensures Scan(rest[..Scan(rest).kept]) == Scan(rest)
    decreases |rest|
  {
    hide ParseBatch;
    if rest != [] && ParseBatch(rest).Batch? {
      var Batch(events, n) := ParseBatch(rest);
      var k := Scan(rest[n..]).kept;
      var kept := rest[..n + k];
      assert kept[..n] == rest[..n];
      ParseBatchLocal(rest, kept);
      assert kept[n..] == rest[n..][..k];
      ScanIdempotent(rest[n..]);
    } else {
      assert rest[..0] == [];
    }
  }

  lemma {:induction false} ScanWritten(batches: seq<seq<RecordedEvent>>)
    requires forall b <- batches :: WritableBatch(b)
    ensures Scan(BatchesBytes(batches)) == Recovered(batches, |BatchesBytes(batches)|)
  {
    hide ParseBatch, BatchBytes, Scan, WritableBatch, RecordsBytes;
    ScanStep(BatchesBytes(batches));
    if batches != [] {
      var head, tail := BatchBytes(batches[0]), BatchesBytes(batches[1..]);
      ParseBatchWritten(batches[0], tail);
      assert (head + tail)[|head|..] == tail;
      ScanWritten(batches[1..]);
    }
  }

  lemma {:induction false} BatchesBytesAppend(batches: seq<seq<RecordedEvent>>, last: seq<RecordedEvent>)
    ensures BatchesBytes(batches + [last]) == BatchesBytes(batches) + BatchBytes(last)
  {
    hide BatchBytes;
    if batches == [] {
      assert batches + [last] == [last] && [last][1..] == [];
    } else {
      assert (batches + [last])[1..] == batches[1..] + [last];
      BatchesBytesAppend(batches[1..], last);
    }
  }

  lemma {:induction false} FlattenAppend(batches: seq<seq<RecordedEvent>>, more: seq<seq<RecordedEvent>>)
    ensures Flatten(batches + more) == Flatten(batches) + Flatten(more)
  {
    if batches == [] {
      assert batches + more == more;
    } else {
      assert (batches + more)[1..] == batches[1..] + more;
      FlattenAppend(batches[1..], more);
    }
  }

  /**
   * A crash during an append is atomic. Start from any file that `open` recovers without cutting it,
   * append a batch, and lose any number of the batch's bytes: `open` recovers the old batches and the
   * new one if all its bytes survived, or exactly the old batches and the old file otherwise.
   */
  lemma CrashAtomicity(data: seq<byte>, batches: seq<seq<RecordedEvent>>, last: seq<RecordedEvent>, n: nat)
    requires OpenFile(data) == Ok((batches, |data|))
    requires WritableBatch(last) && n <= |BatchBytes(last)|
    ensures OpenFile(data + BatchBytes(last)[..n])
            == Ok(if n == |BatchBytes(last)| then (batches + [last], |data| + n) else (batches, |data|))
  {
    hide DecodeFileHeader, BatchBytes, Scan;
    var tail := BatchBytes(last)[..n];
    var file := data + tail;
    assert file[..8] == data[..8] && file[8..] == data[8..] + tail;
    ScanExtended(data[8..], tail);
    ScanCutBatch(last, n);
    assert batches + [] == batches;
  }

  lemma ScanCutBatch(last: seq<RecordedEvent>, n: nat)
    requires WritableBatch(last) && n <= |BatchBytes(last)|
    ensures Scan(BatchBytes(last)[..n]) == if n == |BatchBytes(last)| then Recovered([last], n) else Recovered([], 0)
  {
    hide ParseBatch, BatchBytes, RecordsBytes;
    BatchSize(last);
    var tail := BatchBytes(last)[..n];
    if n == |BatchBytes(last)| {
      assert tail == BatchBytes(last) + [];
      ParseBatchWritten(last, []);
      assert tail[n..] == [];
    } else if n > 0 {
      ParseBatchCut(last, n);
    }
  }

  /** `open` is idempotent on arbitrary bytes: reopening the file it leaves gives the same batches and cuts nothing. */
  lemma OpenIdempotent(data: seq<byte>)
    requires OpenFile(data).Ok?
    ensures OpenFile(data[..OpenFile(data).value.1]) == OpenFile(data)
  {
    hide DecodeFileHeader, Scan;
    var kept := data[..OpenFile(data).value.1];
    assert kept[..8] == data[..8];
    assert kept[8..] == data[8..][..Scan(data[8..]).kept];
    ScanIdempotent(data[8..]);
  }

  /** A file made of whole batches is recovered whole. */
  lemma OpenWritten(batches: seq<seq<RecordedEvent>>)
    requires forall b <- batches :: WritableBatch(b)
    ensures OpenFile(FileBytes(batches)) == Ok((batches, |FileBytes(batches)|))
  {
    hide DecodeFileHeader, Scan, BatchesBytes, FileHeaderBytes;
    FileHeaderRoundTrip();
    var file := FileBytes(batches);
    assert file[..8] == FileHeaderBytes() && file[8..] == BatchesBytes(batches);
    ScanWritten(batches);
  }

  /** How many leading batches fit completely into the first `n` bytes. */
  function Whole(batches: seq<seq<RecordedEvent>>, n: nat): (k: nat)
    ensures k <= |batches|
  {
    if batches == [] || n < |BatchBytes(batches[0])| then 0
    else 1 + Whole(batches[1..], n - |BatchBytes(batches[0])|)
  }

  lemma {:induction false} ScanCut(batches: seq<seq<RecordedEvent>>, n: nat)
    requires forall b <- batches :: WritableBatch(b)
    requires n <= |BatchesBytes(batches)|
    ensures var k := Whole(batches, n);
            Scan(BatchesBytes(batches)[..n]) == Recovered(batches[..k], |BatchesBytes(batches[..k])|)
  {
    hide ParseBatch, BatchBytes, Scan, WritableBatch, RecordsBytes;
    ScanStep(BatchesBytes(batches)[..n]);
    if batches == [] || n == 0 {
      assert BatchesBytes(batches)[..n] == [] && batches[..0] == [];
      if batches != [] {
        BatchSize(batches[0]);
      }
    } else {
      var head, tail := BatchBytes(batches[0]), BatchesBytes(batches[1..]);
      var cut := BatchesBytes(batches)[..n];
      if n < |head| {
        assert cut == head[..n];
        ParseBatchCut(batches[0], n);
      } else {
        var m := n - |head|;
        assert cut == head + tail[..m];
        ParseBatchWritten(batches[0], tail[..m]);
        assert cut[|head|..] == tail[..m];
        ScanCut(batches[1..], m);
        var k := Whole(batches[1..], m);
        assert batches[..k + 1] == [batches[0]] + batches[1..][..k];
        assert batches[..k + 1][1..] == batches[1..][..k];
      }
    }
  }

  /**
   * Cut a written file anywhere behind its header: `open` recovers exactly the batches that are whole, and the
   * file ends with them.
   */
  lemma OpenCut(batches: seq<seq<RecordedEvent>>, cut: nat)
    requires forall b <- batches :: WritableBatch(b)
    requires 8 <= cut <= |FileBytes(batches)|
    ensures var k := Whole(batches, cut - 8);
            OpenFile(FileBytes(batches)[..cut]) == Ok((batches[..k], |FileBytes(batches[..k])|))
  {
    hide DecodeFileHeader, Scan, BatchesBytes, FileHeaderBytes, Whole;
    FileHeaderRoundTrip();
    var file := FileBytes(batches)[..cut];
    assert file[..8] == FileHeaderBytes() && file[8..] == BatchesBytes(batches)[..cut - 8];
    ScanCut(batches, cut - 8);
  }

  lemma {:induction false} WholeMonotone(batches: seq<seq<RecordedEvent>>, n: nat, m: nat)
    requires n <= m
    ensures Whole(batches, n) <= Whole(batches, m)
  {
    hide BatchBytes;
    if batches != [] && n >= |BatchBytes(batches[0])| {
      WholeMonotone(batches[1..], n - |BatchBytes(batches[0])|, m - |BatchBytes(batches[0])|);
    }
  }

  /** The batches that fit are those whose encoding is no longer than the room. */
  lemma {:induction false} WholeExact(batches: seq<seq<RecordedEvent>>, n: nat, k: nat)
    requires k <= |batches|
    ensures k <= Whole(batches, n) <==> |BatchesBytes(batches[..k])| <= n
  {
    hide BatchBytes;
    if k > 0 {
      var head := BatchBytes(batches[0]);
      assert batches[..k][1..] == batches[1..][..k - 1];
      if n >= |head| {
        WholeExact(batches[1..], n - |head|, k - 1);
      }
    }
  }

  // ------------------------------------------------------------------------------- corruption

  /** `data[..n]` is a header and a run of whole, valid batches. */
  predicate CleanUpTo(data: seq<byte>, n: nat) {
    n <= |data| && OpenFile(data[..n]).Ok? && OpenFile(data[..n]).value.1 == n
  }

  /** The bytes of a batch header's magic, with room for the header. */
  predicate MagicAt(data: seq<byte>, k: nat) {
    k + 16 <= |data| && data[k..k + 4] == [0x45, 0x46, 0x42, 0x42]
  }

  /** Behind `n` clean bytes with `p` events, a batch header has the wrong magic, and a right one occurs later. */
  ghost predicate CorruptAt(data: seq<byte>, n: nat, p: nat) {
    && CleanUpTo(data, n) && p == |Flatten(OpenFile(data[..n]).value.0)|
    && n + 16 <= |data| && !MagicAt(data, n) && exists k: nat | n < k :: MagicAt(data, k)
  }

  lemma MagicBehind(data: seq<byte>, n: nat, k: nat)
    requires n <= |data|
    ensures HeaderAt(data[n..], k) <==> MagicAt(data, n + k)
  {
    hide FromLittleEndian;
    if n + k + 16 <= |data| {
      assert data[n..][k..][..4] == data[n + k..n + k + 4];
    }
  }

  /** The corruption test of the recovery loop, in bytes. */
  lemma BadHeaderExact(data: seq<byte>, n: nat)
    requires n <= |data|
    ensures ParseBatch(data[n..]).BadMagic? && HeaderFollows(data[n..])
            <==> n + 16 <= |data| && !MagicAt(data, n) && exists k: nat | n < k :: MagicAt(data, k)
  {
    hide HeaderAt, MagicAt, ParseRecords, Crc32.Hash, FromLittleEndian;
    var rest := data[n..];
    assert ParseBatch(rest).BadMagic? <==> |rest| >= 16 && !HeaderAt(rest, 0) by { FirstHeader(rest); }
    MagicBehind(data, n, 0);
    if HeaderFollows(rest) {
      var probe :| 1 <= probe < |rest| && HeaderAt(rest, probe);
      MagicBehind(data, n, probe);
    }
    if k: nat :| n < k && MagicAt(data, k) {
      MagicBehind(data, n, k - n);
      HeaderRoom(rest, k - n);
    }
  }

  lemma FirstHeader(rest: seq<byte>)
    ensures ParseBatch(rest).BadMagic? <==> |rest| >= 16 && !HeaderAt(rest, 0)
  {
    hide ParseRecords, Crc32.Hash, FromLittleEndian;
    assert rest[0..] == rest;
  }

  lemma HeaderRoom(rest: seq<byte>, k: nat)
    requires HeaderAt(rest, k)
    ensures k < |rest|
  {}

  /**
   * `open` refuses a file exactly when, behind some whole batches, the next batch header has the wrong magic
   * and the magic of a batch header occurs later; the position it reports is the number of events before. No other
   * corruption behind the file header is an error.
   */
  lemma RefusedExactly(data: seq<byte>, p: nat)
    ensures OpenFile(data) == Err(CorruptRecord(p)) <==> exists n: nat :: CorruptAt(data, n, p)
    ensures OpenFile(data).Err? ==> OpenFile(data) == Err(InvalidHeader) || OpenFile(data).error.CorruptRecord?
  {
    hide ParseBatch, HeaderFollows, Scan, MagicAt;
    if OpenFile(data) == Err(CorruptRecord(p)) {
      var m := RefusedAt(data[8..]);
      var clean := data[..8 + m];
      assert clean[..8] == data[..8] && clean[8..] == data[8..][..m] && data[8 + m..] == data[8..][m..];
      BadHeaderExact(data, 8 + m);
      assert CorruptAt(data, 8 + m, p);
    }
    if n: nat :| CorruptAt(data, n, p) {
      var clean := data[..n];
      assert clean[..8] == data[..8] && data[8..] == clean[8..] + data[n..];
      BadHeaderExact(data, n);
      ScanExtended(clean[8..], data[n..]);
      BadMagicRefused(data[n..]);
    }
  }

  /** The file header is refused exactly when it is not the one this version writes. */
  lemma InvalidHeaderExactly(data: seq<byte>)
    ensures OpenFile(data) == Err(InvalidHeader) <==> |data| < 8 || data[..8] != [0x45, 0x46, 0x44, 0x42, 3, 0, 0, 0]
  {
    hide Scan, DecodeFileHeader;
    if |data| >= 8 {
      FileHeaderExact(data[..8]);
    }
  }

  lemma BadMagicRefused(rest: seq<byte>)
    requires ParseBatch(rest).BadMagic? && HeaderFollows(rest)
    ensures Scan(rest) == MidFileCorruption(0)
  {
    hide ParseRecords, HeaderAt;
  }

  lemma {:induction false} RefusedAt(rest: seq<byte>) returns (n: nat)
    requires Scan(rest).MidFileCorruption?
    ensures n <= |rest| && Scan(rest[..n]).Recovered? && Scan(rest[..n]).kept == n
    ensures Scan(rest) == MidFileCorruption(|Flatten(Scan(rest[..n]).batches)|)
    ensures ParseBatch(rest[n..]).BadMagic? && HeaderFollows(rest[n..])
    decreases |rest|
  {
    hide ParseBatch, HeaderFollows;
    if ParseBatch(rest).Batch? {
      var k := ParseBatch(rest).consumed;
      var m := RefusedAt(rest[k..]);
      n := k + m;
      assert rest[n..] == rest[k..][m..];
      var clean := rest[..n];
      assert clean[..k] == rest[..k];
      ParseBatchLocal(rest, clean);
      assert clean[k..] == rest[k..][..m];
    } else {
      n := 0;
      assert rest[..0] == [] && rest[0..] == rest;
    }
  }

  lemma {:induction false} ParseRecordsCorrupt(before: seq<RecordedEvent>, damaged: seq<byte>, count: nat)
    requires forall e <- before :: Storable(e)
    requires DecodeRecord(damaged) == Corrupt && count > |before|
    ensures ParseRecords(count, RecordsBytes(before) + damaged) == Corrupt
  {
    hide DecodeRecord, RecordBytes, Storable;
    if before == [] {
      assert RecordsBytes(before) + damaged == damaged;
    } else {
      var head, tail := RecordBytes(before[0]), RecordsBytes(before[1..]);
      assert RecordsBytes(before) + damaged == head + (tail + damaged);
      RecordRoundTrip(before[0], tail + damaged);
      assert (head + (tail + damaged))[|head|..] == tail + damaged;
      ParseRecordsCorrupt(before[1..], damaged, count - 1);
    }
  }

  /**
   * Damage inside a committed record is never served, and is not an error either: change any byte of the body or
   * checksum of any record of any batch, and `open` recovers exactly the batches before it. That batch and
   * everything behind it is cut off, however much valid data follows.
   */
  lemma DamagedRecordTruncates(batches: seq<seq<RecordedEvent>>, before: seq<RecordedEvent>, e: RecordedEvent,
                               after: seq<RecordedEvent>,
                               rest: seq<byte>, i: nat, b: byte)
    requires forall x <- batches :: WritableBatch(x)
    requires WritableBatch(before + [e] + after)
    requires 4 <= i < |RecordBytes(e)| && b != RecordBytes(e)[i]
    ensures var count := |before + [e] + after|;
            var header := BatchHeaderBytes(count, FirstPosition(before + [e] + after));
            OpenFile(FileBytes(batches) + (header + (RecordsBytes(before) + (RecordBytes(e)[i := b] + rest))))
            == Ok((batches, |FileBytes(batches)|))
  {
    hide OpenFile, FileBytes, RecordsBytes, RecordBytes, DecodeRecord, BatchHeaderBytes, EncodedSize;
    var all := before + [e] + after;
    assert e in all && forall x <- before :: x in all;
    var damaged := RecordBytes(e)[i := b] + rest;
    RecordRoundTrip(e, rest);
    assert damaged == (RecordBytes(e) + rest)[i := b];
    ByteChangeIsCorrupt(RecordBytes(e) + rest, i, b);
    var tail := BatchHeaderBytes(|all|, FirstPosition(all)) + (RecordsBytes(before) + damaged);
    ParseRecordsCorrupt(before, damaged, |all|);
    FlawedTail(all, RecordsBytes(before) + damaged);
    OpenWritten(batches);
    OpenWithFlawedTail(FileBytes(batches), batches, tail);
  }

  /** Change one byte behind the count in the header of a batch, or in its footer: the batch is flawed. */
  lemma DamagedEnvelopeFlawed(last: seq<RecordedEvent>, rest: seq<byte>, i: nat, b: byte)
    requires WritableBatch(last)
    requires i < |BatchBytes(last)| && (8 <= i < 16 || i >= |BatchBytes(last)| - 8) && b != BatchBytes(last)[i]
    ensures ParseBatch(BatchBytes(last)[i := b] + rest).Flawed?
  {
    hide BatchBytes, RecordsBytes, ParseRecords, Crc32.Hash, BatchFooterBytes, FromLittleEndian, BatchHeaderFor,
         BatchHeaderBytes;
    var data := BatchBytes(last) + rest;
    var end := 16 + |RecordsBytes(last)|;
    BatchSize(last);
    BatchParts(last, rest);
    var changed := BatchBytes(last)[i := b] + rest;
    assert changed == data[i := b];
    assert changed[..4] == data[..4] && changed[4..8] == data[4..8];
    assert changed[16..] == RecordsBytes(last) + changed[end..];
    ParseRecordsWritten(last, changed[end..]);
    var crc := Crc32.Hash(data[..end]);
    BatchFooterRoundTrip(crc, rest);
    if i < 16 {
      assert changed[end..] == data[end..] && changed[..end] == data[..end][i := b];
      Crc32.HashDetectsByteChange(data[..end], i, b);
    } else {
      assert changed[..end] == data[..end];
      DamagedFooter(data[end..], i - end, b);
      assert changed[end..] == data[end..][i - end := b];
    }
  }

  /** A changed footer is no footer, or holds another checksum. */
  lemma DamagedFooter(footer: seq<byte>, i: nat, b: byte)
    requires DecodeBatchFooter(footer).Complete? && i < 8 && b != footer[i]
    ensures var r := DecodeBatchFooter(footer[i := b]);
            r == Corrupt || (r.Complete? && r.value != DecodeBatchFooter(footer).value)
  {
    hide FromLittleEndian;
    var changed := footer[i := b];
    if i < 4 {
      assert changed[..4][i] != footer[..4][i];
    } else {
      assert changed[..4] == footer[..4];
      assert changed[4..8][i - 4] != footer[4..8][i - 4];
      if FromLittleEndian(changed[4..8]) == FromLittleEndian(footer[4..8]) {
        FromLittleEndianInjective(changed[4..8], footer[4..8]);
      }
    }
  }

  /**
   * Damage to the envelope of a committed batch is never served either: change any byte of the first position, the
   * footer or the batch checksum, and `open` recovers exactly the batches before it.
   */
  lemma DamagedEnvelopeTruncates(batches: seq<seq<RecordedEvent>>, last: seq<RecordedEvent>, rest: seq<byte>, i: nat,
                                 b: byte)
    requires (forall x <- batches :: WritableBatch(x)) && WritableBatch(last)
    requires i < |BatchBytes(last)| && (8 <= i < 16 || i >= |BatchBytes(last)| - 8) && b != BatchBytes(last)[i]
    ensures OpenFile(FileBytes(batches) + (BatchBytes(last)[i := b] + rest)) == Ok((batches, |FileBytes(batches)|))
  {
    hide OpenFile, FileBytes, RecordsBytes, BatchBytes, ParseBatch;
    DamagedEnvelopeFlawed(last, rest, i, b);
    OpenWritten(batches);
    OpenWithFlawedTail(FileBytes(batches), batches, BatchBytes(last)[i := b] + rest);
  }

  /** Write another count into the header of a batch. */
  function Recount(events: seq<RecordedEvent>, count: nat): seq<byte> {
    BatchHeaderBytes(count, FirstPosition(events)) + (RecordsBytes(events)
    + BatchFooterBytes(Crc32.Hash(BatchHeaderFor(events) + RecordsBytes(events))))
  }

  /**
   * So is damage to the count: with fewer records announced, a record stands where the footer should, and with more,
   * the footer is taken for a record, whose length reaches beyond any file of less than a gigabyte.
   */
  lemma DamagedCountTruncates(batches: seq<seq<RecordedEvent>>, last: seq<RecordedEvent>, rest: seq<byte>, count: u32)
    requires (forall x <- batches :: WritableBatch(x)) && WritableBatch(last)
    requires count < |last| || (count > |last| && |rest| < 0x4000_0000)
    ensures OpenFile(FileBytes(batches) + (Recount(last, count) + rest)) == Ok((batches, |FileBytes(batches)|))
  {
    hide OpenFile, FileBytes, Recount, ParseBatch;
    if count < |last| {
      FewerRecords(last, rest, count);
    } else {
      MoreRecords(last, rest, count);
    }
    OpenWritten(batches);
    OpenWithFlawedTail(FileBytes(batches), batches, Recount(last, count) + rest);
  }

  lemma FewerRecords(last: seq<RecordedEvent>, rest: seq<byte>, count: u32)
    requires WritableBatch(last) && count < |last|
    ensures Recount(last, count) + rest != [] && ParseBatch(Recount(last, count) + rest).Flawed?
  {
    hide RecordBytes, RecordsBytes, ParseRecords, Crc32.Hash, BatchFooterBytes, BatchHeaderBytes, BatchHeaderFor,
         DecodeBatchHeader, EncodedSize;
    var footer := BatchFooterBytes(Crc32.Hash(BatchHeaderFor(last) + RecordsBytes(last)));
    var header := BatchHeaderBytes(count, FirstPosition(last));
    var data := Recount(last, count) + rest;
    var kept, behind := last[..count], RecordsBytes(last[count..]) + (footer + rest);
    RecordsSplit(last, count);
    assert data == header + (RecordsBytes(kept) + behind);
    BatchHeaderRoundTrip(count, FirstPosition(last), RecordsBytes(kept) + behind);
    assert data[16..] == RecordsBytes(kept) + behind;
    assert forall e <- kept :: e in last;
    ParseRecordsWritten(kept, behind);
    assert data[16 + |RecordsBytes(kept)|..] == behind;
    assert last[count] in last;
    RecordIsNoFooter(last[count], last[count..], footer + rest);
  }

  lemma {:induction false} RecordsSplit(events: seq<RecordedEvent>, n: nat)
    requires n <= |events|
    ensures RecordsBytes(events) == RecordsBytes(events[..n]) + RecordsBytes(events[n..])
  {
    hide RecordBytes;
    if n == 0 {
      assert events[..0] == [] && events[0..] == events;
    } else {
      RecordsSplit(events[1..], n - 1);
      assert events[..n][1..] == events[1..][..n - 1] && events[1..][n - 1..] == events[n..];
    }
  }

  /** The length of a storable record is too small to look like the magic of a footer. */
  lemma RecordIsNoFooter(e: RecordedEvent, events: seq<RecordedEvent>, rest: seq<byte>)
    requires Storable(e) && events != [] && events[0] == e
    ensures DecodeBatchFooter(RecordsBytes(events) + rest) == Corrupt
  {
    hide RecordBytes, LittleEndian, Crc32.Hash;
    var data := RecordsBytes(events) + rest;
    FixedLayout(e);
    var n := |RecordBytes(e)| - 4;
    assert data[..4] == RecordBytes(e)[0..4] == LittleEndian(n, 4);
    U32Bytes(LittleEndian(n, 4), n);
    MagicNumbers();
  }

  lemma MagicNumbers()
    ensures FromLittleEndian(BATCH_FOOTER_MAGIC) == 0x4642_4645
  {
    assert FromLittleEndian([0x46]) == 0x46;
    assert FromLittleEndian([0x42, 0x46]) == 0x4642 by { assert [0x42, 0x46][1..] == [0x46]; }
    assert FromLittleEndian([0x46, 0x42, 0x46]) == 0x46_4246 by { assert [0x46, 0x42, 0x46][1..] == [0x42, 0x46]; }
    assert BATCH_FOOTER_MAGIC[1..] == [0x46, 0x42, 0x46];
  }

  lemma MoreRecords(last: seq<RecordedEvent>, rest: seq<byte>, count: u32)
    requires WritableBatch(last) && count > |last| && |rest| < 0x4000_0000
    ensures Recount(last, count) + rest != [] && ParseBatch(Recount(last, count) + rest).Flawed?
  {
    hide RecordBytes, RecordsBytes, ParseRecords, Crc32.Hash, BatchHeaderBytes, BatchHeaderFor, DecodeBatchHeader,
         EncodedSize, LittleEndian, FromLittleEndian, DecodeRecord;
    var footer := BatchFooterBytes(Crc32.Hash(BatchHeaderFor(last) + RecordsBytes(last)));
    var header := BatchHeaderBytes(count, FirstPosition(last));
    var data := Recount(last, count) + rest;
    assert data == header + (RecordsBytes(last) + (footer + rest));
    BatchHeaderRoundTrip(count, FirstPosition(last), RecordsBytes(last) + (footer + rest));
    assert data[16..] == RecordsBytes(last) + (footer + rest);
    FooterIsNoRecord(footer + rest);
    ParseRecordsStops(last, footer + rest, count);
  }

  lemma FooterIsNoRecord(data: seq<byte>)
    requires 4 <= |data| < 0x4000_0000 + 8 && data[..4] == BATCH_FOOTER_MAGIC
    ensures DecodeRecord(data) == Incomplete
  {
    hide ParseFields, Crc32.Hash;
    MagicNumbers();
  }

  lemma {:induction false} ParseRecordsStops(events: seq<RecordedEvent>, rest: seq<byte>, count: nat)
    requires (forall e <- events :: Storable(e)) && DecodeRecord(rest) == Incomplete && count > |events|
    ensures ParseRecords(count, RecordsBytes(events) + rest) == Incomplete
  {
    hide DecodeRecord, RecordBytes, Storable;
    if events == [] {
      assert RecordsBytes(events) + rest == rest;
    } else {
      var head, tail := RecordBytes(events[0]), RecordsBytes(events[1..]);
      assert RecordsBytes(events) + rest == head + (tail + rest);
      RecordRoundTrip(events[0], tail + rest);
      assert (head + (tail + rest))[|head|..] == tail + rest;
      ParseRecordsStops(events[1..], rest, count - 1);
    }
  }

  lemma FlawedTail(all: seq<RecordedEvent>, records: seq<byte>)
    requires |all| < 0x1_0000_0000 && ParseRecords(|all|, records) == Corrupt
    ensures ParseBatch(BatchHeaderBytes(|all|, FirstPosition(all)) + records) == Flawed(RecordCorrupt)
  {
    hide BatchHeaderBytes, DecodeBatchHeader, ParseRecords;
    var header := BatchHeaderBytes(|all|, FirstPosition(all));
    BatchHeaderRoundTrip(|all|, FirstPosition(all), records);
    assert (header + records)[16..] == records;
  }

  /** Behind a clean file, a flawed batch is cut off and nothing else happens. */
  lemma OpenWithFlawedTail(data: seq<byte>, batches: seq<seq<RecordedEvent>>, tail: seq<byte>)
    requires OpenFile(data) == Ok((batches, |data|)) && tail != [] && ParseBatch(tail).Flawed?
    ensures OpenFile(data + tail) == Ok((batches, |data|))
  {
    hide DecodeFileHeader, ParseBatch, Scan;
    var file := data + tail;
    assert file[..8] == data[..8] && file[8..] == data[8..] + tail;
    ScanExtended(data[8..], tail);
    ScanStep(tail);
    assert batches + [] == batches;
  }
}
