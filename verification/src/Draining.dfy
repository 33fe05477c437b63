/** However the writer groups its queue into drains, only timestamps can differ. */
module Draining {
  import opened Bytes
  import opened Types
  import opened Codec
  import opened Index
  import opened Dedup
  import opened Appending
  import opened Writer

  function Erase(e: RecordedEvent): RecordedEvent {
    e.(recordedAt := 0)
  }

  function EraseAll(events: seq<RecordedEvent>): (r: seq<RecordedEvent>)
    ensures |r| == |events|
  {
    seq(|events|, i requires 0 <= i < |events| => Erase(events[i]))
  }

  function EraseAccess(a: Access): Access {
    match a
    case Get(_) => a
    case Put(id, batch) => Put(id, EraseAll(batch))
  }

  function EraseAccesses(accesses: seq<Access>): (r: seq<Access>)
    ensures |r| == |accesses|
  {
    seq(|accesses|, i requires 0 <= i < |accesses| => EraseAccess(accesses[i]))
  }

  function EraseLru(lru: Lru): Lru {
    lru.(batches := map k | k in lru.batches :: EraseAll(lru.batches[k]))
  }

  function EraseResult(r: Result<seq<RecordedEvent>>): Result<seq<RecordedEvent>> {
    match r
    case Ok(events) => Ok(EraseAll(events))
    case Err(e) => Err(e)
  }

  /** Equal up to the timestamps of events. */
  ghost predicate SameLog(a: Log, b: Log) {
    EraseAll(a.events) == EraseAll(b.events) && a.streams == b.streams
  }

  ghost predicate Same(a: State, b: State) {
    |a.file| == |b.file| && SameLog(a.log, b.log) && EraseLru(a.dedup) == EraseLru(b.dedup)
  }

  lemma EraseConcat(a: seq<RecordedEvent>, b: seq<RecordedEvent>)
    ensures EraseAll(a + b) == EraseAll(a) + EraseAll(b)
  {}

  lemma {:induction false} EraseAccessAll(lru: Lru, accesses: seq<Access>)
    ensures EraseLru(AccessAll(lru, accesses)) == AccessAll(EraseLru(lru), EraseAccesses(accesses))
  {
    if accesses != [] {
      var n := |accesses| - 1;
      EraseAccessAll(lru, accesses[..n]);
      assert EraseAccesses(accesses)[..n] == EraseAccesses(accesses[..n]);
      EraseAccess1(AccessAll(lru, accesses[..n]), accesses[n]);
    }
  }

  lemma EraseAccess1(lru: Lru, a: Access)
    ensures EraseLru(Access1(lru, a)) == Access1(EraseLru(lru), EraseAccess(a))
  {
    hide Take, ToFront, EraseAll;
  }

  lemma {:induction false} SameVerdict(proposed: seq<ProposedEvent>, stream: Uuid, version: nat, position: nat,
                                       at: u64, at': u64)
    requires version + |proposed| <= VEC_LIMIT && position + |proposed| <= VEC_LIMIT
    ensures var b := BuildBatch(proposed, stream, version, position, at);
            var b' := BuildBatch(proposed, stream, version, position, at');
            && (b.Ok? <==> b'.Ok?)
            && (b.Err? ==> b == b')
            && (b.Ok? ==> |R.RecordsBytes(b.value)| == |R.RecordsBytes(b'.value)|)
    decreases |proposed|
  {
    hide RecordBytes;
    if proposed != [] {
      RecordSize(Record(proposed[0], stream, version, position, at));
      RecordSize(Record(proposed[0], stream, version, position, at'));
      SameVerdict(proposed[1..], stream, version + 1, position + 1, at, at');
    }
  }

  /** Batches that differ only in timestamps are accepted or rejected alike, and get the same positions and size. */
  lemma SameBatch(proposed: seq<ProposedEvent>, stream: Uuid, version: nat, position: nat, at: u64, at': u64)
    requires version + |proposed| <= VEC_LIMIT && position + |proposed| <= VEC_LIMIT
    ensures var b := BuildBatch(proposed, stream, version, position, at);
            var b' := BuildBatch(proposed, stream, version, position, at');
            && EraseResult(b) == EraseResult(b')
            && (b.Ok? ==>
                && |R.RecordsBytes(b.value)| == |R.RecordsBytes(b'.value)|
                && Positions(b.value) == Positions(b'.value))
  {
    hide BuildBatch, R.RecordsBytes, EncodedSize;
    SameVerdict(proposed, stream, version, position, at, at');
    BuildBatchExact(proposed, stream, version, position, at);
    BuildBatchExact(proposed, stream, version, position, at');
    var b := BuildBatch(proposed, stream, version, position, at);
    var b' := BuildBatch(proposed, stream, version, position, at');
    if b.Ok? {
      assert EraseAll(b.value) == EraseAll(b'.value);
    }
  }

  /** One request: from states equal up to timestamps, with any two stamps, the outcomes are equal up to timestamps. */
  lemma SameProcess(a: State, b: State, s: Stamped, t: Stamped)
    requires Same(a, b) && s.request == t.request
    requires Admitted(a.log, s.request)
    ensures Admitted(b.log, t.request)
    ensures var o, p := Process(a, s), Process(b, t);
            && Same(o.state, p.state)
            && EraseResult(o.response) == EraseResult(p.response)
            && EraseAll(o.published) == EraseAll(p.published)
  {
    hide AccessAll, BuildBatch, R.RecordsBytes, R.BatchBytes;
    var r := s.request;
    var version := |Entry(a.log.streams, r.stream)|;
    assert |a.log.events| == |EraseAll(a.log.events)| == |b.log.events|;
    SameBatch(r.events, r.stream, version, |a.log.events|, s.at, t.at);
    SameCached(a.dedup, b.dedup, r.events);
    EraseAccessAll(a.dedup, Accesses(a, s));
    EraseAccessAll(b.dedup, Accesses(b, t));
    SameAccesses(a, b, s, t);
    if Writes(a, s) {
      EraseConcat(a.log.events, Process(a, s).published);
      EraseConcat(b.log.events, Process(b, t).published);
      R.BatchSize(Process(a, s).published);
      R.BatchSize(Process(b, t).published);
    }
  }

  lemma SameCached(a: Lru, b: Lru, proposed: seq<ProposedEvent>)
    requires EraseLru(a) == EraseLru(b)
    ensures Cached(a, proposed).Some? <==> Cached(b, proposed).Some?
    ensures Cached(a, proposed).Some? ==> EraseAll(Cached(a, proposed).value) == EraseAll(Cached(b, proposed).value)
  {
    assert a.batches.Keys == EraseLru(a).batches.Keys == EraseLru(b).batches.Keys == b.batches.Keys;
    if Cached(a, proposed).Some? {
      var id := proposed[0].eventId;
      assert EraseLru(a).batches[id] == EraseLru(b).batches[id];
    }
  }

  lemma SameAccesses(a: State, b: State, s: Stamped, t: Stamped)
    requires Same(a, b) && s.request == t.request
    requires Admitted(a.log, s.request) && Admitted(b.log, t.request)
    ensures EraseAccesses(Accesses(a, s)) == EraseAccesses(Accesses(b, t))
  {
    hide AccessAll, BuildBatch, R.RecordsBytes, R.BatchBytes;
    var r := s.request;
    assert |a.log.events| == |EraseAll(a.log.events)| == |b.log.events|;
    SameBatch(r.events, r.stream, |Entry(a.log.streams, r.stream)|, |a.log.events|, s.at, t.at);
    SameCached(a.dedup, b.dedup, r.events);
    if Writes(a, s) {
      var x, y := Process(a, s).published, Process(b, t).published;
      SameRecordAccesses(x, y);
      EraseAccessesConcat(CheckAccesses(r.events), RecordAccesses(x));
      EraseAccessesConcat(CheckAccesses(r.events), RecordAccesses(y));
    }
  }

  lemma EraseAccessesConcat(a: seq<Access>, b: seq<Access>)
    ensures EraseAccesses(a + b) == EraseAccesses(a) + EraseAccesses(b)
  {}

  lemma SameRecordAccesses(x: seq<RecordedEvent>, y: seq<RecordedEvent>)
    requires EraseAll(x) == EraseAll(y)
    ensures EraseAccesses(RecordAccesses(x)) == EraseAccesses(RecordAccesses(y))
  {
    assert |x| == |EraseAll(x)| == |y|;
    forall i | 0 <= i < |x|
      ensures EraseAccess(RecordAccesses(x)[i]) == EraseAccess(RecordAccesses(y)[i])
    {
      assert EraseAll(x)[i] == EraseAll(y)[i];
    }
  }

  function Requests(stamped: seq<Stamped>): (r: seq<Request>)
    ensures |r| == |stamped|
  {
    seq(|stamped|, i requires 0 <= i < |stamped| => stamped[i].request)
  }

  function EraseResults(results: seq<Result<seq<RecordedEvent>>>): (r: seq<Result<seq<RecordedEvent>>>)
    ensures |r| == |results|
  {
    seq(|results|, i requires 0 <= i < |results| => EraseResult(results[i]))
  }

  ghost predicate SameRun(a: Run, b: Run) {
    && Same(a.state, b.state)
    && EraseResults(a.responses) == EraseResults(b.responses)
    && EraseAll(a.published) == EraseAll(b.published)
  }

  lemma {:induction false} SameProcessAll(a: State, b: State, ss: seq<Stamped>, ts: seq<Stamped>)
    requires Same(a, b) && Requests(ss) == Requests(ts) && AllAdmitted(a, ss)
    ensures AllAdmitted(b, ts)
    ensures SameRun(ProcessAll(a, ss), ProcessAll(b, ts))
    decreases |ss|
  {
    hide Same, Process, Admitted;
    assert |ss| == |Requests(ss)| == |ts|;
    if ss != [] {
      assert Requests(ss)[0] == Requests(ts)[0];
      assert Requests(ss[1..]) == Requests(ss)[1..] && Requests(ts[1..]) == Requests(ts)[1..];
      SameProcess(a, b, ss[0], ts[0]);
      var o, p := Process(a, ss[0]), Process(b, ts[0]);
      SameProcessAll(o.state, p.state, ss[1..], ts[1..]);
      var x, y := ProcessAll(o.state, ss[1..]), ProcessAll(p.state, ts[1..]);
      EraseConcat(o.published, x.published);
      EraseConcat(p.published, y.published);
      ConsResults(o.response, x.responses, p.response, y.responses);
    }
  }

  lemma ConsResults(o: Result<seq<RecordedEvent>>, x: seq<Result<seq<RecordedEvent>>>, p: Result<seq<RecordedEvent>>,
                    y: seq<Result<seq<RecordedEvent>>>)
    requires EraseResult(o) == EraseResult(p) && EraseResults(x) == EraseResults(y)
    ensures EraseResults([o] + x) == EraseResults([p] + y)
  {
    assert EraseResults([o] + x) == [EraseResult(o)] + EraseResults(x);
    assert EraseResults([p] + y) == [EraseResult(p)] + EraseResults(y);
  }

  lemma {:induction false} StampAllRequests(drains: seq<Drain>)
    ensures Requests(StampAll(drains)) == Queue(drains)
  {
    if drains != [] {
      StampAllRequests(drains[1..]);
      assert Requests(Stamp(drains[0])) == drains[0].requests;
      assert Requests(StampAll(drains)) == Requests(Stamp(drains[0])) + Requests(StampAll(drains[1..]));
    }
  }

  /**
   * Draining is unobservable: however the queue is grouped into drains and whatever the clock says, positions,
   * versions, answers, cache and publication order are the same; only timestamps can differ.
   */
  lemma DrainingUnobservable(w: State, drains: seq<Drain>, drains': seq<Drain>)
    requires Queue(drains) == Queue(drains') && AllAdmitted(w, StampAll(drains))
    ensures AllAdmitted(w, StampAll(drains'))
    ensures SameRun(ProcessAll(w, StampAll(drains)), ProcessAll(w, StampAll(drains')))
  {
    hide AllAdmitted, ProcessAll, StampAll, SameRun;
    StampAllRequests(drains);
    StampAllRequests(drains');
    SameProcessAll(w, w, StampAll(drains), StampAll(drains'));
  }
}
