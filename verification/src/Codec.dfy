/** The binary codec: records, batch headers and footers, the file header. */
module Codec {
  import opened Bytes
  import opened Utf8
  import opened Types
  import Crc32

  const FIXED_BODY_SIZE: nat := 70
  const BATCH_HEADER_SIZE: nat := 16
  const BATCH_FOOTER_SIZE: nat := 8
  const FILE_MAGIC: seq<byte> := [0x45, 0x46, 0x44, 0x42]
  const BATCH_HEADER_MAGIC: seq<byte> := [0x45, 0x46, 0x42, 0x42]
  const BATCH_FOOTER_MAGIC: seq<byte> := [0x45, 0x46, 0x42, 0x46]
  const FORMAT_VERSION: nat := 3

  /** Outcome of decoding a frame from the start of a buffer. */
  datatype Decoded<+T> = Complete(value: T, consumed: nat) | Incomplete | Corrupt

  // ---------------------------------------------------------------- layout

  // The record fields, each followed by what comes after it. `junk` stands for
  // bytes that a decoder finds behind the payload and ignores.

  function PayloadField(e: RecordedEvent, junk: seq<byte>): seq<byte> {
    LittleEndian(|e.payload|, 4) + (e.payload + junk)
  }

  function MetadataField(e: RecordedEvent, junk: seq<byte>): seq<byte> {
    LittleEndian(|e.metadata|, 4) + (e.metadata + PayloadField(e, junk))
  }

  function TypeField(e: RecordedEvent, junk: seq<byte>): seq<byte> {
    LittleEndian(|e.eventType|, 2) + (e.eventType + MetadataField(e, junk))
  }

  function Fields(e: RecordedEvent, junk: seq<byte>): seq<byte> {
    LittleEndian(e.globalPosition, 8)
    + (LittleEndian(e.recordedAt, 8)
    + (e.streamId
    + (LittleEndian(e.streamVersion, 8)
    + (e.eventId + TypeField(e, junk)))))
  }

  /** A length-prefixed, checksummed frame around a protected region. */
  function Frame(protected: seq<byte>, crc: nat): seq<byte> {
    LittleEndian(|protected| + 4, 4) + (protected + LittleEndian(crc, 4))
  }

  function ChecksummedFrame(protected: seq<byte>): seq<byte> {
    Frame(protected, Crc32.Hash(protected))
  }

  /** The on-disk form of an event. */
  function RecordBytes(e: RecordedEvent): seq<byte> {
    ChecksummedFrame(Fields(e, []))
  }

  /** The three length fields of the record hold these lengths without loss. */
  predicate LengthsFit(e: RecordedEvent) {
    |e.eventType| < 0x1_0000 && |e.metadata| < 0x1_0000_0000 && |e.payload| < 0x1_0000_0000
  }

  /** `total_len`: length prefix, fixed fields and the three variable ones. */
  function EncodedSize(e: RecordedEvent): nat {
    4 + FIXED_BODY_SIZE + |e.eventType| + |e.metadata| + |e.payload|
  }

  /** What `append` checks of an event before it writes it. */
  predicate Storable(e: RecordedEvent) {
    0 < |e.eventType| <= MAX_EVENT_TYPE_LEN && EncodedSize(e) <= MAX_EVENT_SIZE
  }

  lemma RecordSize(e: RecordedEvent)
    ensures |RecordBytes(e)| == EncodedSize(e)
  {
    hide Crc32.Hash;
  }

  // -------------------------------------------------------------- decoding

  function ReadBytes(p: seq<byte>, n: nat): Option<(seq<byte>, seq<byte>)> {
    if n > |p| then None else Some((p[..n], p[n..]))
  }

  function ReadU64(p: seq<byte>): Option<(u64, seq<byte>)> {
    var (s, rest) :- ReadBytes(p, 8);
    Pow256Values();
    FromLittleEndianBound(s);
    Some((FromLittleEndian(s), rest))
  }

  function ReadNumber(p: seq<byte>, n: nat): Option<(nat, seq<byte>)> {
    var (s, rest) :- ReadBytes(p, n);
    Some((FromLittleEndian(s), rest))
  }

  function ReadUuid(p: seq<byte>): Option<(Uuid, seq<byte>)> {
    var (s, rest) :- ReadBytes(p, 16);
    Some((s, rest))
  }

  /** Parse the fields of a record out of its protected region; bytes after the payload are ignored. */
  function ParseFields(p: seq<byte>): Option<RecordedEvent> {
    var (globalPosition, p) :- ReadU64(p);
    var (recordedAt, p) :- ReadU64(p);
    var (streamId, p) :- ReadUuid(p);
    var (streamVersion, p) :- ReadU64(p);
    var (eventId, p) :- ReadUuid(p);
    var (typeLen, p) :- ReadNumber(p, 2);
    var (eventType, p) :- ReadBytes(p, typeLen);
    if !ValidUtf8(eventType) then None else
    var (metadataLen, p) :- ReadNumber(p, 4);
    var (metadata, p) :- ReadBytes(p, metadataLen);
    var (payloadLen, p) :- ReadNumber(p, 4);
    var (payload, p) :- ReadBytes(p, payloadLen);
    Some(RecordedEvent(eventId, streamId, streamVersion, globalPosition, recordedAt,
                       eventType, metadata, payload))
  }

  /** Decode one record from the start of `buf`. */
  function DecodeRecord(buf: seq<byte>): (r: Decoded<RecordedEvent>)
    ensures r.Complete? ==> 8 <= r.consumed <= |buf|
  {
    if |buf| < 4 then Incomplete else
    var total := 4 + FromLittleEndian(buf[..4]);
    if |buf| < total then Incomplete else
    if total < 8 then Corrupt else
    var protected := buf[4..total - 4];
    if FromLittleEndian(buf[total - 4..total]) != Crc32.Hash(protected) then Corrupt else
    match ParseFields(protected)
    case None => Corrupt
    case Some(e) => Complete(e, total)
  }

  datatype BatchHeader = BatchHeader(recordCount: nat, firstGlobalPos: nat)

  function BatchHeaderBytes(recordCount: nat, firstGlobalPos: nat): (s: seq<byte>)
    ensures |s| == BATCH_HEADER_SIZE
  {
    BATCH_HEADER_MAGIC + LittleEndian(recordCount, 4) + LittleEndian(firstGlobalPos, 8)
  }

  function DecodeBatchHeader(buf: seq<byte>): Decoded<BatchHeader> {
    if |buf| < BATCH_HEADER_SIZE then Incomplete
    else if buf[..4] != BATCH_HEADER_MAGIC then Corrupt
    else Complete(BatchHeader(FromLittleEndian(buf[4..8]), FromLittleEndian(buf[8..16])), BATCH_HEADER_SIZE)
  }

  function BatchFooterBytes(crc: nat): (s: seq<byte>)
    ensures |s| == BATCH_FOOTER_SIZE
  {
    BATCH_FOOTER_MAGIC + LittleEndian(crc, 4)
  }

  function DecodeBatchFooter(buf: seq<byte>): Decoded<nat> {
    if |buf| < BATCH_FOOTER_SIZE then Incomplete
    else if buf[..4] != BATCH_FOOTER_MAGIC then Corrupt
    else Complete(FromLittleEndian(buf[4..8]), BATCH_FOOTER_SIZE)
  }

  function FileHeaderBytes(): (s: seq<byte>)
    ensures |s| == 8
  {
    FILE_MAGIC + LittleEndian(FORMAT_VERSION, 4)
  }

  function DecodeFileHeader(buf: seq<byte>): Result<nat>
    requires |buf| == 8
  {
    if buf[..4] != FILE_MAGIC then Err(InvalidHeader)
    else if FromLittleEndian(buf[4..8]) != FORMAT_VERSION then Err(InvalidHeader)
    else Ok(FORMAT_VERSION)
  }

  // ---------------------------------------------- printer/parser agreement

  lemma ReadU64Exact(p: seq<byte>, x: u64, rest: seq<byte>)
    ensures ReadU64(p) == Some((x, rest)) <==> p == LittleEndian(x, 8) + rest
  {
    Pow256Values();
    ReadNumberExact(p, 8, x, rest);
  }

  lemma ReadNumberExact(p: seq<byte>, n: nat, x: nat, rest: seq<byte>)
    requires x < Pow256(n)
    ensures ReadNumber(p, n) == Some((x, rest)) <==> p == LittleEndian(x, n) + rest
  {
    LittleEndianRoundTrip(x, n);
    if n <= |p| {
      EncodeDecoded(p[..n]);
      assert p == p[..n] + p[n..];
    }
  }

  lemma ReadBytesExact(p: seq<byte>, s: seq<byte>, rest: seq<byte>)
    ensures ReadBytes(p, |s|) == Some((s, rest)) <==> p == s + rest
  {
    if |s| <= |p| {
      assert p == p[..|s|] + p[|s|..];
    }
  }

  lemma ParsePrinted(e: RecordedEvent, junk: seq<byte>)
    requires LengthsFit(e)
    ensures ParseFields(Fields(e, junk)) == Some(e)
  {
    Pow256Values();
    var p := Fields(e, junk);
    var p1 := p[8..];
    var p2 := p1[8..];
    var p3 := p2[16..];
    var p4 := p3[8..];
    var p5 := p4[16..];
    var p6 := p5[2..];
    var p7 := p6[|e.eventType|..];
    var p8 := p7[4..];
    var p9 := p8[|e.metadata|..];
    var p10 := p9[4..];
    ReadU64Exact(p, e.globalPosition, p1);
    ReadU64Exact(p1, e.recordedAt, p2);
    ReadBytesExact(p2, e.streamId, p3);
    ReadU64Exact(p3, e.streamVersion, p4);
    ReadBytesExact(p4, e.eventId, p5);
    assert p5 == TypeField(e, junk);
    ReadNumberExact(p5, 2, |e.eventType|, p6);
    ReadBytesExact(p6, e.eventType, p7);
    assert p7 == MetadataField(e, junk);
    ReadNumberExact(p7, 4, |e.metadata|, p8);
    ReadBytesExact(p8, e.metadata, p9);
    assert p9 == PayloadField(e, junk);
    ReadNumberExact(p9, 4, |e.payload|, p10);
    ReadBytesExact(p10, e.payload, junk);
  }

  lemma ParsedIsPrinted(p: seq<byte>) returns (junk: seq<byte>)
    requires ParseFields(p).Some?
    ensures var e := ParseFields(p).value; LengthsFit(e) && p == Fields(e, junk)
  {
    Pow256Values();
    var e := ParseFields(p).value;
    forall s: seq<byte> | |s| == 2 || |s| == 4
      ensures FromLittleEndian(s) < Pow256(|s|)
    {
      FromLittleEndianBound(s);
    }
    var p1 := p[8..];
    var p2 := p1[8..];
    var p3 := p2[16..];
    var p4 := p3[8..];
    var p5 := p4[16..];
    var p6 := p5[2..];
    var p7 := p6[|e.eventType|..];
    var p8 := p7[4..];
    var p9 := p8[|e.metadata|..];
    var p10 := p9[4..];
    junk := p10[|e.payload|..];
    ReadNumberExact(p9, 4, |e.payload|, p10);
    ReadBytesExact(p10, e.payload, junk);
    assert p9 == PayloadField(e, junk);
    ReadNumberExact(p7, 4, |e.metadata|, p8);
    ReadBytesExact(p8, e.metadata, p9);
    assert p7 == MetadataField(e, junk);
    ReadNumberExact(p5, 2, |e.eventType|, p6);
    ReadBytesExact(p6, e.eventType, p7);
    assert p5 == TypeField(e, junk);
    ReadBytesExact(p4, e.eventId, p5);
    ReadU64Exact(p3, e.streamVersion, p4);
    ReadBytesExact(p2, e.streamId, p3);
    ReadU64Exact(p1, e.recordedAt, p2);
    ReadU64Exact(p, e.globalPosition, p1);
  }

  /** `buf` starts with an `n`-byte frame of `e`, possibly with ignored bytes behind the payload. */
  ghost predicate StartsWithRecord(buf: seq<byte>, e: RecordedEvent, n: nat) {
    n <= |buf| && LengthsFit(e) && n - 4 < 0x1_0000_0000
    && exists junk :: buf[..n] == ChecksummedFrame(Fields(e, junk))
  }

  /** A frame of fewer than 2^32 bytes is determined by its length prefix, its middle and its last four bytes. */
  lemma FrameParts(buf: seq<byte>, protected: seq<byte>, crc: u32, n: nat)
    requires 8 <= n <= |buf| && n - 4 < 0x1_0000_0000
    ensures buf[..n] == Frame(protected, crc)
            <==> && 4 + FromLittleEndian(buf[..4]) == n
                 && buf[4..n - 4] == protected
                 && FromLittleEndian(buf[n - 4..n]) == crc
  {
    ThreeParts(buf, LittleEndian(|protected| + 4, 4), protected, LittleEndian(crc, 4), n);
    if |protected| + 8 == n {
      U32Bytes(buf[..4], |protected| + 4);
      U32Bytes(buf[n - 4..n], crc);
    }
  }

  lemma U32Bytes(s: seq<byte>, x: u32)
    requires |s| == 4
    ensures FromLittleEndian(s) == x <==> s == LittleEndian(x, 4)
  {
    Pow256Values();
    LittleEndianRoundTrip(x, 4);
    EncodeDecoded(s);
  }

  lemma U64Bytes(s: seq<byte>, x: u64)
    requires |s| == 8
    ensures FromLittleEndian(s) == x <==> s == LittleEndian(x, 8)
  {
    Pow256Values();
    LittleEndianRoundTrip(x, 8);
    EncodeDecoded(s);
  }

  lemma ThreeParts(buf: seq<byte>, a: seq<byte>, b: seq<byte>, c: seq<byte>, n: nat)
    requires |a| == |c| == 4 && 8 <= n <= |buf|
    ensures buf[..n] == a + (b + c)
            <==> |b| + 8 == n && buf[..4] == a && buf[4..n - 4] == b && buf[n - 4..n] == c
  {
    var s := a + (b + c);
    assert s[..4] == a && s[4..|s| - 4] == b && s[|s| - 4..] == c;
    assert buf[..n][..4] == buf[..4] && buf[..n][4..n - 4] == buf[4..n - 4] && buf[..n][n - 4..] == buf[n - 4..n];
    assert buf[..n] == buf[..4] + (buf[4..n - 4] + buf[n - 4..n]);
  }

  lemma DecodeFramed(buf: seq<byte>, protected: seq<byte>, n: nat)
    requires 8 <= n <= |buf| && n - 4 < 0x1_0000_0000 && buf[..n] == ChecksummedFrame(protected)
    ensures DecodeRecord(buf) == (match ParseFields(protected) case None => Corrupt case Some(e) => Complete(e, n))
  {
    FrameParts(buf, protected, Crc32.Hash(protected), n);
  }

  lemma DecodedIsFramed(buf: seq<byte>)
    requires DecodeRecord(buf).Complete?
    ensures var n := DecodeRecord(buf).consumed;
            && 8 <= n <= |buf| && n - 4 < 0x1_0000_0000
            && buf[..n] == ChecksummedFrame(buf[4..n - 4])
            && ParseFields(buf[4..n - 4]) == Some(DecodeRecord(buf).value)
  {
    hide Crc32.Hash, ParseFields;
    Pow256Values();
    FromLittleEndianBound(buf[..4]);
    var n := DecodeRecord(buf).consumed;
    FrameParts(buf, buf[4..n - 4], Crc32.Hash(buf[4..n - 4]), n);
  }

  /** The decoder accepts exactly the frames the layout describes, and nothing else. */
  lemma DecodeRecordExact(buf: seq<byte>, e: RecordedEvent, n: nat)
    ensures DecodeRecord(buf) == Complete(e, n) <==> StartsWithRecord(buf, e, n)
  {
    if StartsWithRecord(buf, e, n) {
      FramedDecodes(buf, e, n);
    }
    if DecodeRecord(buf) == Complete(e, n) {
      DecodedIsFramed(buf);
      ParsedFrame(buf, buf[4..n - 4], e, n);
    }
  }

  lemma ParsedFrame(buf: seq<byte>, protected: seq<byte>, e: RecordedEvent, n: nat)
    requires n <= |buf| && n - 4 < 0x1_0000_0000 && buf[..n] == ChecksummedFrame(protected)
    requires ParseFields(protected) == Some(e)
    ensures StartsWithRecord(buf, e, n)
  {
    var junk := ParsedIsPrinted(protected);
    assert buf[..n] == ChecksummedFrame(Fields(e, junk));
  }

  lemma FramedDecodes(buf: seq<byte>, e: RecordedEvent, n: nat)
    requires StartsWithRecord(buf, e, n)
    ensures DecodeRecord(buf) == Complete(e, n)
  {
    var junk :| buf[..n] == ChecksummedFrame(Fields(e, junk));
    ParsePrinted(e, junk);
    DecodeFramed(buf, Fields(e, junk), n);
  }

  /** Every storable event round-trips, whatever bytes follow it. */
  lemma RecordRoundTrip(e: RecordedEvent, rest: seq<byte>)
    requires Storable(e)
    ensures DecodeRecord(RecordBytes(e) + rest) == Complete(e, |RecordBytes(e)|)
  {
    hide Crc32.Hash, Fields, DecodeRecord, Frame;
    RecordSize(e);
    var buf := RecordBytes(e) + rest;
    assert buf[..|RecordBytes(e)|] == ChecksummedFrame(Fields(e, []));
    DecodeRecordExact(buf, e, |RecordBytes(e)|);
  }

  /** A strict prefix of a record is reported as incomplete, never as corrupt. */
  lemma RecordPrefixIncomplete(e: RecordedEvent, n: nat)
    requires Storable(e) && n < |RecordBytes(e)|
    ensures DecodeRecord(RecordBytes(e)[..n]) == Incomplete
  {
    hide Crc32.Hash, Fields, ParseFields, Frame;
    RecordSize(e);
    var s := RecordBytes(e);
    assert s[..|s|] == s;
    FrameParts(s, Fields(e, []), Crc32.Hash(Fields(e, [])), |s|);
    if n >= 4 {
      assert s[..n][..4] == s[..4];
    }
  }

  /** A complete record depends only on the bytes it consumes. */
  lemma DecodeRecordLocal(buf: seq<byte>, other: seq<byte>)
    requires DecodeRecord(buf).Complete?
    requires DecodeRecord(buf).consumed <= |other|
    requires var n := DecodeRecord(buf).consumed; other[..n] == buf[..n]
    ensures DecodeRecord(other) == DecodeRecord(buf)
  {
    var Complete(e, n) := DecodeRecord(buf);
    DecodeRecordExact(buf, e, n);
    DecodeRecordExact(other, e, n);
  }

  /** Any one-byte change of the body or the checksum of an accepted record is reported as corruption. */
  lemma ByteChangeIsCorrupt(buf: seq<byte>, i: nat, b: byte)
    requires DecodeRecord(buf).Complete?
    requires 4 <= i < DecodeRecord(buf).consumed && b != buf[i]
    ensures DecodeRecord(buf[i := b]) == Corrupt
  {
    hide Crc32.Hash, ParseFields;
    var n := DecodeRecord(buf).consumed;
    var changed := buf[i := b];
    assert changed[..4] == buf[..4];
    if i < n - 4 {
      assert changed[4..n - 4] == buf[4..n - 4][i - 4 := b];
      assert changed[n - 4..n] == buf[n - 4..n];
      Crc32.HashDetectsByteChange(buf[4..n - 4], i - 4, b);
    } else {
      assert changed[4..n - 4] == buf[4..n - 4];
      assert changed[n - 4..n][i - (n - 4)] != buf[n - 4..n][i - (n - 4)];
      if FromLittleEndian(changed[n - 4..n]) == FromLittleEndian(buf[n - 4..n]) {
        FromLittleEndianInjective(changed[n - 4..n], buf[n - 4..n]);
      }
    }
  }

  lemma BatchHeaderRoundTrip(count: u32, first: u64, rest: seq<byte>)
    ensures DecodeBatchHeader(BatchHeaderBytes(count, first) + rest)
            == Complete(BatchHeader(count, first), BATCH_HEADER_SIZE)
  {
    Pow256Values();
    LittleEndianRoundTrip(count, 4);
    LittleEndianRoundTrip(first, 8);
    var buf := BatchHeaderBytes(count, first) + rest;
    assert buf[..4] == BATCH_HEADER_MAGIC;
    assert buf[4..8] == LittleEndian(count, 4);
    assert buf[8..16] == LittleEndian(first, 8);
  }

  lemma BatchFooterRoundTrip(crc: u32, rest: seq<byte>)
    ensures DecodeBatchFooter(BatchFooterBytes(crc) + rest) == Complete(crc, BATCH_FOOTER_SIZE)
  {
    Pow256Values();
    LittleEndianRoundTrip(crc, 4);
    var buf := BatchFooterBytes(crc) + rest;
    assert buf[..4] == BATCH_FOOTER_MAGIC;
    assert buf[4..8] == LittleEndian(crc, 4);
  }

  lemma FileHeaderRoundTrip()
    ensures DecodeFileHeader(FileHeaderBytes()) == Ok(FORMAT_VERSION)
  {
    Pow256Values();
    LittleEndianRoundTrip(FORMAT_VERSION, 4);
    var buf := FileHeaderBytes();
    assert buf[..4] == FILE_MAGIC;
    assert buf[4..8] == LittleEndian(FORMAT_VERSION, 4);
  }

  // -------------------------------------------------------------------------- the format, byte by byte

  /** Where the fields of fixed size lie in a record. */
  lemma FixedLayout(e: RecordedEvent)
    ensures var s, n := RecordBytes(e), |e.eventType| + |e.metadata| + |e.payload|;
            && |s| == 74 + n
            && s[0..4] == LittleEndian(70 + n, 4)
            && s[4..12] == LittleEndian(e.globalPosition, 8)
            && s[12..20] == LittleEndian(e.recordedAt, 8)
            && s[20..36] == e.streamId
            && s[36..44] == LittleEndian(e.streamVersion, 8)
            && s[44..60] == e.eventId
            && s[60..62] == LittleEndian(|e.eventType|, 2)
            && s[70 + n..] == LittleEndian(Crc32.Hash(s[4..70 + n]), 4)
  {
    hide Crc32.Hash, LittleEndian, MetadataField;
    var s, fields := RecordBytes(e), Fields(e, []);
    assert |MetadataField(e, [])| == 8 + |e.metadata| + |e.payload| by { MetadataSize(e); }
    assert s[4..|s| - 4] == fields;
  }

  lemma MetadataSize(e: RecordedEvent)
    ensures |MetadataField(e, [])| == 8 + |e.metadata| + |e.payload|
  {
    hide LittleEndian;
  }

  /** Where the type, the metadata and the payload lie, each behind its length. */
  lemma VariableLayout(e: RecordedEvent)
    ensures var s, t := RecordBytes(e), |e.eventType|;
            var m := t + |e.metadata|;
            && |s| == 74 + m + |e.payload|
            && s[62..62 + t] == e.eventType
            && s[62 + t..66 + t] == LittleEndian(|e.metadata|, 4)
            && s[66 + t..66 + m] == e.metadata
            && s[66 + m..70 + m] == LittleEndian(|e.payload|, 4)
            && s[70 + m..70 + m + |e.payload|] == e.payload
  {
    hide RecordBytes, LittleEndian, Crc32.Hash, Fields, EncodedSize;
    var s, t := RecordBytes(e), |e.eventType|;
    var m := t + |e.metadata|;
    var crc := LittleEndian(Crc32.Hash(Fields(e, [])), 4);
    var payload := LittleEndian(|e.payload|, 4) + (e.payload + crc);
    FromType(e);
    NextField(s, 62, e.eventType, LittleEndian(|e.metadata|, 4) + (e.metadata + payload));
    NextField(s, 62 + t, LittleEndian(|e.metadata|, 4), e.metadata + payload);
    NextField(s, 66 + t, e.metadata, payload);
    NextField(s, 66 + m, LittleEndian(|e.payload|, 4), e.payload + crc);
    NextField(s, 70 + m, e.payload, crc);
  }

  lemma FromType(e: RecordedEvent)
    ensures var s, crc := RecordBytes(e), LittleEndian(Crc32.Hash(Fields(e, [])), 4);
            && |s| == 74 + |e.eventType| + |e.metadata| + |e.payload|
            && s[62..] == e.eventType + (LittleEndian(|e.metadata|, 4)
                          + (e.metadata + (LittleEndian(|e.payload|, 4) + (e.payload + crc))))
  {
    hide Crc32.Hash, LittleEndian;
    RecordSize(e);
    var crc := LittleEndian(Crc32.Hash(Fields(e, [])), 4);
    assert RecordBytes(e)[60..] == TypeField(e, []) + crc;
    assert RecordBytes(e)[62..] == e.eventType + (MetadataField(e, []) + crc);
  }

  lemma NextField(s: seq<byte>, i: nat, field: seq<byte>, rest: seq<byte>)
    requires i <= |s| && s[i..] == field + rest
    ensures i + |field| <= |s| && s[i..i + |field|] == field && s[i + |field|..] == rest
  {
    assert s[i..][..|field|] == field && s[i..][|field|..] == rest;
  }

  /**
   * Every buffer is one of three things: incomplete exactly when it ends before its length prefix says, complete
   * exactly when it starts with a record frame, and corrupt otherwise.
   */
  lemma RecordOutcomeExact(buf: seq<byte>)
    ensures DecodeRecord(buf) == Incomplete <==> |buf| < 4 || |buf| < 4 + FromLittleEndian(buf[..4])
    ensures DecodeRecord(buf).Complete?
            <==> exists e: RecordedEvent, n: nat :: StartsWithRecord(buf, e, n)
  {
    hide Crc32.Hash, ParseFields, StartsWithRecord;
    if DecodeRecord(buf).Complete? {
      DecodeRecordExact(buf, DecodeRecord(buf).value, DecodeRecord(buf).consumed);
    }
    if e: RecordedEvent, n: nat :| StartsWithRecord(buf, e, n) {
      DecodeRecordExact(buf, e, n);
    }
  }

  /** A batch header is accepted exactly for its sixteen bytes: `EFBB`, the count and the first position. */
  lemma BatchHeaderExact(buf: seq<byte>, count: u32, first: u64)
    ensures DecodeBatchHeader(buf) == Incomplete <==> |buf| < 16
    ensures DecodeBatchHeader(buf) == Corrupt <==> |buf| >= 16 && buf[..4] != [0x45, 0x46, 0x42, 0x42]
    ensures DecodeBatchHeader(buf) == Complete(BatchHeader(count, first), 16)
            <==> |buf| >= 16 && buf[..16] == [0x45, 0x46, 0x42, 0x42] + LittleEndian(count, 4) + LittleEndian(first, 8)
  {
    hide FromLittleEndian, LittleEndian;
    if |buf| >= 16 {
      assert buf[..16] == buf[..4] + buf[4..8] + buf[8..16];
      U32Bytes(buf[4..8], count);
      U64Bytes(buf[8..16], first);
    }
  }

  /** A batch footer is accepted exactly for its eight bytes: `EFBF` and the checksum. */
  lemma BatchFooterExact(buf: seq<byte>, crc: u32)
    ensures DecodeBatchFooter(buf) == Incomplete <==> |buf| < 8
    ensures DecodeBatchFooter(buf) == Corrupt <==> |buf| >= 8 && buf[..4] != [0x45, 0x46, 0x42, 0x46]
    ensures DecodeBatchFooter(buf) == Complete(crc, 8)
            <==> |buf| >= 8 && buf[..8] == [0x45, 0x46, 0x42, 0x46] + LittleEndian(crc, 4)
  {
    hide FromLittleEndian, LittleEndian;
    if |buf| >= 8 {
      assert buf[..8] == buf[..4] + buf[4..8];
      U32Bytes(buf[4..8], crc);
    }
  }

  /** The only file header: `EFDB`, version 3. */
  lemma FileHeaderExact(buf: seq<byte>)
    requires |buf| == 8
    ensures FileHeaderBytes() == [0x45, 0x46, 0x44, 0x42, 3, 0, 0, 0]
    ensures DecodeFileHeader(buf) == if buf == [0x45, 0x46, 0x44, 0x42, 3, 0, 0, 0] then Ok(3) else Err(InvalidHeader)
  {
    assert LittleEndian(3, 4) == [3, 0, 0, 0];
    U32Bytes(buf[4..8], 3);
    assert buf == buf[..4] + buf[4..8];
  }

  // ------------------------------------------------------------------------------ imperative form

  /** `encode_record`: fill a buffer field by field, then checksum everything behind the length prefix. */
  method EncodeRecord(e: RecordedEvent) returns (buf: seq<byte>)
    ensures buf == RecordBytes(e)
  {
    hide Crc32.Hash, LittleEndian;
    var bodyLen := FIXED_BODY_SIZE + |e.eventType| + |e.metadata| + |e.payload|;
    var prefix := LittleEndian(bodyLen, 4);
    buf := prefix;
    buf := buf + LittleEndian(e.globalPosition, 8);
    buf := buf + LittleEndian(e.recordedAt, 8);
    buf := buf + e.streamId;
    buf := buf + LittleEndian(e.streamVersion, 8);
    buf := buf + e.eventId;
    ghost var front := buf;
    buf := buf + LittleEndian(|e.eventType|, 2);
    buf := buf + e.eventType;
    buf := buf + LittleEndian(|e.metadata|, 4);
    buf := buf + e.metadata;
    buf := buf + LittleEndian(|e.payload|, 4);
    buf := buf + e.payload;
    assert buf == front + TypeField(e, []);
    assert buf == prefix + Fields(e, []);
    var crc := Crc32.Hash(buf[4..]);
    assert buf[4..] == Fields(e, []);
    buf := buf + LittleEndian(crc, 4);
  }

  /** Read `n` bytes at the cursor and move it, or fail at the end of the region: the macro of `decode_record`. */
  method ReadAt(region: seq<byte>, cursor: nat, n: nat) returns (r: Option<seq<byte>>, next: nat)
    requires cursor <= |region|
    ensures match ReadBytes(region[cursor..], n)
            case None => r == None && next == cursor
            case Some((s, rest)) => r == Some(s) && next == cursor + n && next <= |region| && rest == region[next..]
    ensures r.Some? ==> |r.value| == n
  {
    if cursor + n > |region| {
      return None, cursor;
    }
    assert region[cursor..][..n] == region[cursor..cursor + n] && region[cursor..][n..] == region[cursor + n..];
    return Some(region[cursor..cursor + n]), cursor + n;
  }

  /** The field-by-field part of `decode_record`, with its cursor. */
  method ReadFields(region: seq<byte>) returns (e: Option<RecordedEvent>)
    ensures e == ParseFields(region)
  {
    hide FromLittleEndian, ReadBytes, ValidUtf8;
    assert region[0..] == region;
    var field, cursor := ReadAt(region, 0, 8);
    if field.None? { return None; }
    var globalPosition := NumberOf(field.value);
    field, cursor := ReadAt(region, cursor, 8);
    if field.None? { return None; }
    var recordedAt := NumberOf(field.value);
    field, cursor := ReadAt(region, cursor, 16);
    if field.None? { return None; }
    var streamId := field.value;
    field, cursor := ReadAt(region, cursor, 8);
    if field.None? { return None; }
    var streamVersion := NumberOf(field.value);
    field, cursor := ReadAt(region, cursor, 16);
    if field.None? { return None; }
    var eventId := field.value;
    field, cursor := ReadAt(region, cursor, 2);
    if field.None? { return None; }
    field, cursor := ReadAt(region, cursor, FromLittleEndian(field.value));
    if field.None? || !ValidUtf8(field.value) { return None; }
    var eventType := field.value;
    field, cursor := ReadAt(region, cursor, 4);
    if field.None? { return None; }
    field, cursor := ReadAt(region, cursor, FromLittleEndian(field.value));
    if field.None? { return None; }
    var metadata := field.value;
    field, cursor := ReadAt(region, cursor, 4);
    if field.None? { return None; }
    field, cursor := ReadAt(region, cursor, FromLittleEndian(field.value));
    if field.None? { return None; }
    return Some(RecordedEvent(eventId, streamId, streamVersion, globalPosition, recordedAt,
                              eventType, metadata, field.value));
  }

  function NumberOf(s: seq<byte>): u64
    requires |s| == 8
  {
    Pow256Values();
    FromLittleEndianBound(s);
    FromLittleEndian(s)
  }
}
