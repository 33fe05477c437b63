/** The single writer: validation, retry detection, append, publication, one request after another. */
module Writer {
  import opened Bytes
  import opened Types
  import opened Index
  import opened Dedup
  import opened Appending
  import R = Recovery
  import S = Store
  import B = Broker

  /** An append request; the service rejects empty ones before they get here. */
  datatype Request = Request(stream: Uuid, expected: ExpectedVersion, events: seq<ProposedEvent>)

  /** A request with the timestamp of the drain it was part of. */
  datatype Stamped = Stamped(request: Request, at: u64)

  /** What the writer owns: the file, the log and the retry cache. */
  datatype State = State(file: seq<byte>, log: Log, dedup: Lru)

  datatype Outcome = Outcome(state: State, response: Result<seq<RecordedEvent>>, published: seq<RecordedEvent>)

  predicate UniqueIds(events: seq<ProposedEvent>) {
    forall i, j | 0 <= i < j < |events| :: events[i].eventId != events[j].eventId
  }

  predicate Admitted(log: Log, request: Request) {
    0 < |request.events| < 0x1_0000_0000 && Fits(log, request.stream, request.events)
  }

  /** The cache accesses one request makes. */
  function Accesses(w: State, s: Stamped): seq<Access>
    requires Admitted(w.log, s.request)
  {
    var r := s.request;
    if !UniqueIds(r.events) then []
    else if Cached(w.dedup, r.events).Some? then CheckAccesses(r.events)
    else
      match Append(w.log, r.stream, r.expected, s.at, r.events)
      case Err(_) => CheckAccesses(r.events)
      case Ok(batch) => CheckAccesses(r.events) + RecordAccesses(batch)
  }

  /** One turn of the writer loop. */
  function Process(w: State, s: Stamped): Outcome
    requires Admitted(w.log, s.request)
  {
    var r := s.request;
    var dedup := AccessAll(w.dedup, Accesses(w, s));
    if !UniqueIds(r.events) then Outcome(w, Err(InvalidArgument), [])
    else
      match Cached(w.dedup, r.events)
      case Some(batch) => Outcome(w.(dedup := dedup), Ok(batch), [])
      case None =>
        match Append(w.log, r.stream, r.expected, s.at, r.events)
        case Err(e) => Outcome(w.(dedup := dedup), Err(e), [])
        case Ok(batch) =>
          Outcome(State(w.file + R.BatchBytes(batch), Extended(w.log, r.stream, batch), dedup), Ok(batch), batch)
  }

  /** The request was new and accepted: it wrote a batch. */
  predicate Writes(w: State, s: Stamped)
    requires Admitted(w.log, s.request)
  {
    && UniqueIds(s.request.events)
    && Cached(w.dedup, s.request.events).None?
    && Append(w.log, s.request.stream, s.request.expected, s.at, s.request.events).Ok?
  }

  function Total(requests: seq<Stamped>): nat {
    if requests == [] then 0 else |requests[0].request.events| + Total(requests[1..])
  }

  /** All requests can be processed in turn. */
  predicate AllAdmitted(w: State, requests: seq<Stamped>)
    decreases |requests|
  {
    requests == []
    || (Admitted(w.log, requests[0].request) && AllAdmitted(Process(w, requests[0]).state, requests[1..]))
  }

  datatype Run = Run(state: State, responses: seq<Result<seq<RecordedEvent>>>, published: seq<RecordedEvent>)

  /** Process requests one at a time. */
  function ProcessAll(w: State, requests: seq<Stamped>): Run
    requires AllAdmitted(w, requests)
    decreases |requests|
  {
    if requests == [] then Run(w, [], []) else
    var o := Process(w, requests[0]);
    var rest := ProcessAll(o.state, requests[1..]);
    Run(rest.state, [o.response] + rest.responses, o.published + rest.published)
  }

  // -------------------------------------------------------------------------------- the invariant

  /**
   * The log is consistent, no cached answer disagrees with it, and the file holds some batches that are exactly
   * the log.
   */
  ghost predicate WriterOk(w: State) {
    && Consistent(w.log)
    && AgreesWith(w.dedup, w.log.events)
    && exists batches :: S.Holds(w.file, w.log, batches)
  }

  /** What `spawn_writer` starts from: a recovered log and a cache seeded from it. */
  function Spawn(file: seq<byte>, log: Log, capacity: nat): State {
    State(file, log, AccessAll(Empty(capacity), SeedAccesses(log.events)))
  }

  lemma SpawnOk(file: seq<byte>, log: Log, batches: seq<seq<RecordedEvent>>, capacity: nat)
    requires Consistent(log) && S.Holds(file, log, batches)
    ensures WriterOk(Spawn(file, log, capacity))
  {
    hide S.Holds, IndexOf, AccessAll;
    SeededAreSlices(log.events);
    assert log.events + [] == log.events;
    AccessesKeepAgreement(Empty(capacity), SeedAccesses(log.events), log.events, []);
  }

  lemma WriteKeepsOk(w: State, s: Stamped)
    requires WriterOk(w) && Admitted(w.log, s.request) && Writes(w, s)
    ensures WriterOk(Process(w, s).state)
  {
    hide S.Holds, IndexOf, AccessAll, BuildBatch, R.BatchBytes, AgreesWith, WellPositioned, RecordAccesses;
    var r := s.request;
    var batch := Append(w.log, r.stream, r.expected, s.at, r.events).value;
    AppendKeepsConsistent(w.log, r.stream, r.expected, s.at, r.events);
    var batches :| S.Holds(w.file, w.log, batches);
    S.WholeBatchAdded(w.file, w.log, batches, r.stream, batch);
    BuildBatchExact(r.events, r.stream, |Entry(w.log.streams, r.stream)|, |w.log.events|, s.at);
    RecordedAreSlices(w.log.events, batch);
    AccessesKeepAgreement(w.dedup, Accesses(w, s), w.log.events, batch);
  }

  /** Every request keeps the invariant, and the log only grows. */
  lemma ProcessKeepsOk(w: State, s: Stamped)
    requires WriterOk(w) && Admitted(w.log, s.request)
    ensures var w' := Process(w, s).state;
            && WriterOk(w')
            && w.log.events <= w'.log.events
            && |w'.log.events| <= |w.log.events| + |s.request.events|
  {
    hide S.Holds, IndexOf, AccessAll, BuildBatch, R.BatchBytes, AgreesWith, WellPositioned;
    if Writes(w, s) {
      WriteKeepsOk(w, s);
      AppendKeepsConsistent(w.log, s.request.stream, s.request.expected, s.at, s.request.events);
    } else {
      assert w.log.events + [] == w.log.events;
      AccessesKeepAgreement(w.dedup, Accesses(w, s), w.log.events, []);
    }
  }

  predicate Bounded(requests: seq<Stamped>) {
    forall i | 0 <= i < |requests| :: 0 < |requests[i].request.events| < 0x1_0000_0000
  }

  /** Over a whole run: every request is admitted while memory lasts, and the invariant holds at the end. */
  lemma {:induction false} RunKeepsOk(w: State, requests: seq<Stamped>)
    requires WriterOk(w) && Bounded(requests) && |w.log.events| + Total(requests) <= VEC_LIMIT
    ensures AllAdmitted(w, requests) && WriterOk(ProcessAll(w, requests).state)
    decreases |requests|
  {
    hide WriterOk, Process, Admitted;
    if requests != [] {
      AdmittedAlone(w, requests[0]);
      ProcessKeepsOk(w, requests[0]);
      RunKeepsOk(Process(w, requests[0]).state, requests[1..]);
    }
  }

  /** Over a whole run, the log grows by exactly what is published, in order. */
  lemma {:induction false} RunPublishes(w: State, requests: seq<Stamped>)
    requires AllAdmitted(w, requests)
    ensures ProcessAll(w, requests).state.log.events == w.log.events + ProcessAll(w, requests).published
    decreases |requests|
  {
    hide Process, Admitted, Writes, Accesses, AccessAll;
    if requests == [] {
      assert w.log.events + [] == w.log.events;
    } else {
      var o := Process(w, requests[0]);
      ProcessPublishes(w, requests[0]);
      RunPublishes(o.state, requests[1..]);
      var rest := ProcessAll(o.state, requests[1..]);
      assert w.log.events + o.published + rest.published == w.log.events + (o.published + rest.published);
    }
  }

  lemma AdmittedAlone(w: State, s: Stamped)
    requires WriterOk(w) && 0 < |s.request.events| < 0x1_0000_0000 && |w.log.events| + |s.request.events| <= VEC_LIMIT
    ensures Admitted(w.log, s.request)
  {
    hide IndexOf, WellPositioned, AgreesWith, S.Holds;
    ConsistentFits(w.log, s.request.stream, s.request.events);
  }

  /** The log grows by exactly what is published, and nothing is published unless the request wrote. */
  lemma ProcessPublishes(w: State, s: Stamped)
    requires Admitted(w.log, s.request)
    ensures var o := Process(w, s);
            && o.state.log.events == w.log.events + o.published
            && (!Writes(w, s) ==> o.published == [] && o.state.log == w.log && o.state.file == w.file)
            && (Writes(w, s) ==> o.response == Ok(o.published))
            && o.state.dedup == AccessAll(w.dedup, Accesses(w, s))
  {
    hide AccessAll, BuildBatch, R.BatchBytes;
    NoAccess(w.dedup);
    assert w.log.events + [] == w.log.events;
  }

  /**
   * The first two tests of a turn. Repeated ids are refused before anything else and leave no trace; an id found in the
   * cache gets the cached events, becomes the most recently used one, and writes nothing.
   */
  lemma TestsBeforeAppend(w: State, s: Stamped)
    requires Admitted(w.log, s.request)
    ensures var r, o := s.request, Process(w, s);
            && (!UniqueIds(r.events) ==> o == Outcome(w, Err(InvalidArgument), []))
            && (UniqueIds(r.events) && Cached(w.dedup, r.events).Some? ==>
                && o.response == Ok(Cached(w.dedup, r.events).value) && o.published == []
                && o.state.log == w.log && o.state.file == w.file
                && o.state.dedup.order != [] && o.state.dedup.order[0] == r.events[0].eventId)
  {
    hide AccessAll, Append, R.BatchBytes;
    if Cached(w.dedup, s.request.events).Some? {
      HitPromotes(w.dedup, s.request.events);
    }
  }

  lemma HitPromotes(lru: Lru, proposed: seq<ProposedEvent>)
    requires Cached(lru, proposed).Some?
    ensures var order := AccessAll(lru, CheckAccesses(proposed)).order;
            order != [] && order[0] == proposed[0].eventId
  {
    assert CheckAccesses(proposed)[..0] == [];
  }

  /**
   * What a new request is answered with. The expected version decides, then the first event that is not acceptable; a
   * request without either is stored as proposed, next in its stream and in the log.
   */
  lemma NewRequestExact(w: State, s: Stamped)
    requires Consistent(w.log) && Admitted(w.log, s.request)
    requires UniqueIds(s.request.events) && Cached(w.dedup, s.request.events).None?
    ensures var r, o, count := s.request, Process(w, s), |Project(w.log.events, s.request.stream)|;
            && (o.response == Err(WrongExpectedVersion) <==> !Expected(r.expected, count))
            && (forall k: nat | Expected(r.expected, count) && Offends(r.events, k) ::
                  o.response == Err(Complaint(r.events[k])))
            && (o.response.Ok? <==> Expected(r.expected, count) && forall p <- r.events :: Acceptable(p))
            && (o.response.Ok? ==>
                && o.response.value == o.published && |o.published| == |r.events|
                && forall i | 0 <= i < |r.events| ::
                     Stores(o.published[i], r.events[i], r.stream, count + i, |w.log.events| + i, s.at))
  {
    hide Append, Consistent, Stores, Project, Expected, Acceptable, Complaint, Offends, Fits, Process, UniqueIds;
    var r := s.request;
    AppendDecides(w, s);
    AppendExact(w.log, r.stream, r.expected, s.at, r.events);
    AppendComplains(w.log, r, s.at);
    AppendedBatch(w.log, r, s.at);
  }

  lemma AppendDecides(w: State, s: Stamped)
    requires Admitted(w.log, s.request) && UniqueIds(s.request.events) && Cached(w.dedup, s.request.events).None?
    ensures Process(w, s).response == Append(w.log, s.request.stream, s.request.expected, s.at, s.request.events)
    ensures Process(w, s).response.Ok? ==> Process(w, s).response.value == Process(w, s).published
  {
    hide Append, AccessAll, R.BatchBytes;
  }

  lemma AppendComplains(log: Log, r: Request, at: u64)
    requires Consistent(log) && Fits(log, r.stream, r.events)
    ensures forall k: nat | Expected(r.expected, |Project(log.events, r.stream)|) && Offends(r.events, k) ::
              Append(log, r.stream, r.expected, at, r.events) == Err(Complaint(r.events[k]))
  {
    hide BuildBatch, Consistent, Project, Complaint, Expected;
    VersionExact(log, r.stream, r.expected);
    forall k: nat | Expected(r.expected, |Project(log.events, r.stream)|) && Offends(r.events, k)
      ensures Append(log, r.stream, r.expected, at, r.events) == Err(Complaint(r.events[k]))
    {
      FirstOffenderDecides(r.events, r.stream, |Entry(log.streams, r.stream)|, |log.events|, at, k);
    }
  }

  lemma AppendedBatch(log: Log, r: Request, at: u64)
    requires Consistent(log) && Fits(log, r.stream, r.events)
    ensures var a, count := Append(log, r.stream, r.expected, at, r.events), |Project(log.events, r.stream)|;
            a.Ok? ==>
              && |a.value| == |r.events|
              && forall i | 0 <= i < |r.events| ::
                   Stores(a.value[i], r.events[i], r.stream, count + i, |log.events| + i, at)
  {
    hide BuildBatch, Stores;
    ConsistentFits(log, r.stream, r.events);
    BuildBatchExact(r.events, r.stream, |Entry(log.streams, r.stream)|, |log.events|, at);
  }

  // --------------------------------------------------------------------------- imperative form

  /** The requests one iteration of the writer loop drained, with the time it stamped them with. */
  datatype Drain = Drain(at: u64, requests: seq<Request>)

  function StampAll(drains: seq<Drain>): seq<Stamped> {
    if drains == [] then []
    else Stamp(drains[0]) + StampAll(drains[1..])
  }

  function Stamp(drain: Drain): (s: seq<Stamped>)
    ensures |s| == |drain.requests|
    ensures forall i | 0 <= i < |s| :: s[i].request == drain.requests[i] && s[i].at == drain.at
  {
    seq(|drain.requests|, i requires 0 <= i < |drain.requests| => Stamped(drain.requests[i], drain.at))
  }

  function Queue(drains: seq<Drain>): seq<Request> {
    if drains == [] then [] else drains[0].requests + Queue(drains[1..])
  }

  /** A growing set of seen ids finds a repetition exactly when there is one. */
  method ValidateBatchUniqueIds(events: seq<ProposedEvent>) returns (unique: bool)
    ensures unique == UniqueIds(events)
  {
    if |events| <= 1 {
      return true;
    }
    var seen: set<Uuid> := {};
    for i := 0 to |events|
      invariant forall k | 0 <= k < i :: events[k].eventId in seen
      invariant forall id <- seen :: HasId(events, i, id)
      invariant forall j, k | 0 <= j < k < i :: events[j].eventId != events[k].eventId
    {
      if events[i].eventId in seen {
        assert HasId(events, i, events[i].eventId);
        return false;
      }
      assert forall id: Uuid | HasId(events, i, id) :: HasId(events, i + 1, id);
      assert HasId(events, i + 1, events[i].eventId);
      seen := seen + {events[i].eventId};
    }
    return true;
  }

  ghost predicate HasId(events: seq<ProposedEvent>, n: nat, id: Uuid)
    requires n <= |events|
  {
    exists k | 0 <= k < n :: events[k].eventId == id
  }

  /** The writer task: it owns the store and the cache, and publishes to the broker. */
  class WriterTask {
    const store: S.Store
    const dedup: DedupIndex
    const broker: B.Broker

    constructor (store: S.Store, capacity: nat, broker: B.Broker)
      requires capacity > 0
      ensures this.store == store && this.broker == broker && fresh(dedup)
      ensures Snapshot() == Spawn(store.disk.bytes, store.log.View(), capacity)
    {
      var index := new DedupIndex(capacity);
      index.SeedFromLog(store.log.events);
      this.store, this.broker, this.dedup := store, broker, index;
    }

    function Snapshot(): State
      reads store.disk, store.log, dedup
    {
      State(store.disk.bytes, store.log.View(), dedup.cache)
    }

    /** The body of the loop over drained requests. */
    method Handle(request: Request, at: u64) returns (response: Result<seq<RecordedEvent>>)
      requires Admitted(store.log.View(), request)
      modifies store.disk, store.log, dedup, broker
      ensures var o := Process(old(Snapshot()), Stamped(request, at));
              && response == o.response
              && Snapshot() == o.state
              && broker.ring == B.SendAll(old(broker.ring), o.published)
    {
      hide AccessAll, BuildBatch, R.BatchBytes, B.Carries;
      ghost var w := Snapshot();
      NoAccess(w.dedup);
      var unique := ValidateBatchUniqueIds(request.events);
      if !unique {
        return Err(InvalidArgument);
      }
      var cached := dedup.Check(request.events);
      if cached.Some? {
        return Ok(cached.value);
      }
      response := store.Append(request.stream, request.expected, at, request.events);
      if response.Ok? {
        AccessAllConcat(w.dedup, CheckAccesses(request.events), RecordAccesses(response.value));
        dedup.Record(response.value);
        broker.Publish(response.value);
      }
    }

    /**
     * `run_writer`: drain the queue, stamp once per drain, handle each request in order. The answers, the state and
     * everything sent to the broker are those of processing the stamped requests one at a time.
     */
    method RunWriter(drains: seq<Drain>) returns (responses: seq<Result<seq<RecordedEvent>>>)
      requires AllAdmitted(Snapshot(), StampAll(drains))
      modifies store.disk, store.log, dedup, broker
      ensures var run := ProcessAll(old(Snapshot()), StampAll(drains));
              && responses == run.responses
              && Snapshot() == run.state
              && broker.ring == B.SendAll(old(broker.ring), run.published)
    {
      hide Process, Admitted, B.SendAll;
      ghost var start := Snapshot();
      ghost var published: seq<RecordedEvent> := [];
      responses := [];
      NothingSent(broker.ring);
      PrependNothing(ProcessAll(start, StampAll(drains)));
      for i := 0 to |drains|
        invariant AllAdmitted(Snapshot(), StampAll(drains[i..]))
        invariant ProcessAll(start, StampAll(drains))
                  == PrependRun(responses, published, ProcessAll(Snapshot(), StampAll(drains[i..])))
        invariant broker.ring == B.SendAll(old(broker.ring), published)
      {
        ghost var after := StampAll(drains[i + 1..]);
        ghost var stamped := Stamp(drains[i]);
        assert drains[i..][0] == drains[i] && drains[i..][1..] == drains[i + 1..];
        assert stamped[0..] == stamped;
        for j := 0 to |drains[i].requests|
          invariant AllAdmitted(Snapshot(), stamped[j..] + after)
          invariant ProcessAll(start, StampAll(drains))
                    == PrependRun(responses, published, ProcessAll(Snapshot(), stamped[j..] + after))
          invariant broker.ring == B.SendAll(old(broker.ring), published)
        {
          ghost var w, queue := Snapshot(), stamped[j..] + after;
          assert queue[0] == Stamped(drains[i].requests[j], drains[i].at) && queue[1..] == stamped[j + 1..] + after;
          RunStep(responses, published, w, queue);
          SendAllConcat(old(broker.ring), published, Process(w, queue[0]).published);
          var response := Handle(drains[i].requests[j], drains[i].at);
          published := published + Process(w, queue[0]).published;
          responses := responses + [response];
        }
        assert stamped[|drains[i].requests|..] + after == after;
      }
      assert drains[|drains|..] == [];
      assert responses + [] == responses && published + [] == published;
    }
  }

  function PrependRun(responses: seq<Result<seq<RecordedEvent>>>, published: seq<RecordedEvent>, run: Run): Run {
    Run(run.state, responses + run.responses, published + run.published)
  }

  lemma PrependNothing(run: Run)
    ensures PrependRun([], [], run) == run
  {
    assert [] + run.responses == run.responses && [] + run.published == run.published;
  }

  lemma RunStep(responses: seq<Result<seq<RecordedEvent>>>, published: seq<RecordedEvent>, w: State,
                queue: seq<Stamped>)
    requires queue != [] && AllAdmitted(w, queue)
    ensures Admitted(w.log, queue[0].request)
    ensures var o := Process(w, queue[0]);
            && AllAdmitted(o.state, queue[1..])
            && PrependRun(responses, published, ProcessAll(w, queue))
               == PrependRun(responses + [o.response], published + o.published, ProcessAll(o.state, queue[1..]))
  {
    hide Process, Admitted;
    var o := Process(w, queue[0]);
    var rest := ProcessAll(o.state, queue[1..]);
    assert responses + ([o.response] + rest.responses) == responses + [o.response] + rest.responses;
    assert published + (o.published + rest.published) == published + o.published + rest.published;
  }

  lemma NothingSent(ring: B.Ring)
    ensures B.SendAll(ring, []) == ring
  {}

  lemma {:induction false} SendAllConcat(ring: B.Ring, a: seq<RecordedEvent>, b: seq<RecordedEvent>)
    ensures B.SendAll(B.SendAll(ring, a), b) == B.SendAll(ring, a + b)
    decreases |b|
  {
    if b == [] {
      assert a + b == a;
    } else {
      assert (a + b)[..|a + b| - 1] == a + b[..|b| - 1];
      SendAllConcat(ring, a, b[..|b| - 1]);
    }
  }
}
