/** Retries: when a resubmitted request is answered from the cache, and with what. */
module Retries {
  import opened Bytes
  import opened Types
  import opened Index
  import opened Dedup
  import opened Appending
  import opened Writer

  function AccessesAll(w: State, requests: seq<Stamped>): seq<Access>
    requires AllAdmitted(w, requests)
    decreases |requests|
  {
    if requests == [] then []
    else Accesses(w, requests[0]) + AccessesAll(Process(w, requests[0]).state, requests[1..])
  }

  lemma {:induction false} RunAccesses(w: State, requests: seq<Stamped>)
    requires AllAdmitted(w, requests)
    ensures ProcessAll(w, requests).state.dedup == AccessAll(w.dedup, AccessesAll(w, requests))
    ensures forall a <- AccessesAll(w, requests) | a.Put? :: a.id in Ids(ProcessAll(w, requests).published)
    decreases |requests|
  {
    hide Process, AccessAll, Accesses;
    if requests == [] {
      NoAccess(w.dedup);
    } else {
      var o := Process(w, requests[0]);
      ProcessPublishes(w, requests[0]);
      PutsArePublished(w, requests[0]);
      RunAccesses(o.state, requests[1..]);
      AccessAllConcat(w.dedup, Accesses(w, requests[0]), AccessesAll(o.state, requests[1..]));
      IdsConcat(o.published, ProcessAll(o.state, requests[1..]).published);
    }
  }

  lemma IdsConcat(a: seq<RecordedEvent>, b: seq<RecordedEvent>)
    ensures Ids(a + b) == Ids(a) + Ids(b)
  {}

  lemma PutsArePublished(w: State, s: Stamped)
    requires Admitted(w.log, s.request)
    ensures forall a <- Accesses(w, s) | a.Put? :: a.id in Ids(Process(w, s).published)
  {
    hide AccessAll, BuildBatch, R.BatchBytes;
    var batch := Process(w, s).published;
    forall a <- Accesses(w, s) | a.Put?
      ensures a.id in Ids(batch)
    {
      assert a in RecordAccesses(batch);
      var i :| 0 <= i < |batch| && RecordAccesses(batch)[i] == a;
      assert Ids(batch)[i] == a.id;
    }
  }

  lemma {:induction false} LatestNone(a: seq<Access>, id: Uuid)
    requires forall x <- a | x.Put? :: x.id != id
    ensures Latest(a, id) == None
  {
    if a != [] {
      LatestNone(a[..|a| - 1], id);
    }
  }

  /** A request that wrote left its whole batch in the cache under each of its ids. */
  lemma WrittenIsLatest(w: State, s: Stamped, k: nat)
    requires Admitted(w.log, s.request) && Writes(w, s) && k < |s.request.events|
    ensures var batch := Process(w, s).published;
            && batch != [] && |batch| == |s.request.events| && batch[0].globalPosition == |w.log.events|
            && (forall i | 0 <= i < |batch| :: batch[i].eventId == s.request.events[i].eventId)
            && Latest(Accesses(w, s), s.request.events[k].eventId) == Some(batch)
  {
    hide AccessAll, BuildBatch, R.BatchBytes, Latest;
    var r := s.request;
    var batch := Process(w, s).published;
    BuildBatchExact(r.events, r.stream, |Entry(w.log.streams, r.stream)|, |w.log.events|, s.at);
    RecordedLatest(batch, k);
    LatestConcat(CheckAccesses(r.events), RecordAccesses(batch), r.events[k].eventId);
  }

  /**
   * Retries are invisible. After a request wrote its batch and any requests followed, none of which wrote one of its
   * ids again, a request starting with that id is answered from the cache exactly when fewer than `capacity` distinct
   * other ids were touched since the id was; then it gets the original events back and file, log and published
   * sequence stay as they are.
   */
  lemma RetryExact(capacity: nat, history: seq<Access>, w: State, s: Stamped, k: nat, later: seq<Stamped>,
                   retry: Stamped)
    requires capacity > 0 && w.dedup == AccessAll(Empty(capacity), history)
    requires Admitted(w.log, s.request) && Writes(w, s) && k < |s.request.events|
    requires AllAdmitted(Process(w, s).state, later)
    requires var run := ProcessAll(Process(w, s).state, later);
             && s.request.events[k].eventId !in Ids(run.published)
             && Admitted(run.state.log, retry.request)
    requires UniqueIds(retry.request.events) && retry.request.events[0].eventId == s.request.events[k].eventId
    ensures var original := Process(w, s);
            var before := ProcessAll(original.state, later).state;
            var touched := Touched(capacity, history + Accesses(w, s) + AccessesAll(original.state, later));
            var outcome := Process(before, retry);
            && (Cached(before.dedup, retry.request.events).Some?
                <==> |Since(touched, s.request.events[k].eventId)| < capacity)
            && (outcome.response == original.response <==> |Since(touched, s.request.events[k].eventId)| < capacity)
            && (Cached(before.dedup, retry.request.events).Some? ==>
                && outcome.response == original.response
                && outcome.published == []
                && outcome.state == before.(dedup := outcome.state.dedup))
  {
    hide AccessAll, Process, Accesses, Latest, Since, Touched, Writes;
    var original := Process(w, s);
    var id := s.request.events[k].eventId;
    var before := ProcessAll(original.state, later).state;
    var first, rest := Accesses(w, s), AccessesAll(original.state, later);
    var all := history + first + rest;
    ProcessPublishes(w, s);
    RunAccesses(original.state, later);
    AccessAllConcat(Empty(capacity), history, first);
    AccessAllConcat(Empty(capacity), history + first, rest);
    assert before.dedup == AccessAll(Empty(capacity), all);
    WrittenIsLatest(w, s, k);
    LatestNone(rest, id);
    LatestConcat(history, first, id);
    LatestConcat(history + first, rest, id);
    StoredIsTouched(capacity, all, id);
    HoldsMostRecent(capacity, all, id);
    if Cached(before.dedup, retry.request.events).Some? {
      CachedAnswer(before, retry);
    } else {
      RunPublishes(original.state, later);
      NewAnswerDiffers(before, retry, original.published);
    }
  }

  /** A request that is not answered from the cache does not get events that are already in the log. */
  lemma NewAnswerDiffers(w: State, s: Stamped, batch: seq<RecordedEvent>)
    requires Admitted(w.log, s.request) && Cached(w.dedup, s.request.events).None?
    requires batch != [] && batch[0].globalPosition < |w.log.events|
    ensures Process(w, s).response != Ok(batch)
  {
    hide AccessAll, BuildBatch, R.BatchBytes;
    var r := s.request;
    BuildBatchExact(r.events, r.stream, |Entry(w.log.streams, r.stream)|, |w.log.events|, s.at);
  }

  lemma CachedAnswer(w: State, s: Stamped)
    requires Admitted(w.log, s.request) && UniqueIds(s.request.events) && Cached(w.dedup, s.request.events).Some?
    ensures Process(w, s)
            == Outcome(w.(dedup := AccessAll(w.dedup, Accesses(w, s))), Ok(Cached(w.dedup, s.request.events).value), [])
  {
    hide AccessAll;
  }

  /**
   * A restart reseeds the cache one event at a time. From then on, and until the id is written again, a request
   * starting with it is answered from the cache exactly when the log had the id and fewer than `capacity` distinct
   * other ids were touched since; it then gets the latest event with that id, alone, and file, log and published
   * sequence stay as they are.
   */
  lemma AnswersAfterRestart(capacity: nat, file: seq<byte>, log: Log, later: seq<Stamped>, retry: Stamped)
    requires capacity > 0 && AllAdmitted(Spawn(file, log, capacity), later)
    requires Admitted(ProcessAll(Spawn(file, log, capacity), later).state.log, retry.request)
    requires UniqueIds(retry.request.events)
    requires retry.request.events[0].eventId !in Ids(ProcessAll(Spawn(file, log, capacity), later).published)
    ensures var w, id := Spawn(file, log, capacity), retry.request.events[0].eventId;
            var before := ProcessAll(w, later).state;
            var touched := Touched(capacity, SeedAccesses(log.events) + AccessesAll(w, later));
            var outcome := Process(before, retry);
            && (Cached(before.dedup, retry.request.events).Some?
                <==> id in Ids(log.events) && |Since(touched, id)| < capacity)
            && (Cached(before.dedup, retry.request.events).Some? ==>
                && LatestEvent(log.events, id).Some?
                && outcome.response == Ok([LatestEvent(log.events, id).value])
                && outcome.published == []
                && outcome.state == before.(dedup := outcome.state.dedup))
  {
    hide AccessAll, Process, Accesses, Latest, Since, Touched;
    var w, id := Spawn(file, log, capacity), retry.request.events[0].eventId;
    var before := ProcessAll(w, later).state;
    var seed, rest := SeedAccesses(log.events), AccessesAll(w, later);
    RunAccesses(w, later);
    AccessAllConcat(Empty(capacity), seed, rest);
    SeedHistory(capacity, log.events, id);
    LatestNone(rest, id);
    LatestConcat(seed, rest, id);
    StoredIsTouched(capacity, seed + rest, id);
    HoldsMostRecent(capacity, seed + rest, id);
    PresentHasLatest(log.events, id);
    if Cached(before.dedup, retry.request.events).Some? {
      CachedAnswer(before, retry);
    }
  }

  lemma {:induction false} PresentHasLatest(events: seq<RecordedEvent>, id: Uuid)
    ensures LatestEvent(events, id).Some? <==> id in Ids(events)
  {
    if events != [] {
      var n := |events| - 1;
      PresentHasLatest(events[..n], id);
      assert Ids(events) == Ids(events[..n]) + [events[n].eventId];
    }
  }

  lemma {:induction false} LatestEventConcat(a: seq<RecordedEvent>, b: seq<RecordedEvent>, id: Uuid)
    ensures LatestEvent(a + b, id) == if id in Ids(b) then LatestEvent(b, id) else LatestEvent(a, id)
    decreases |b|
  {
    PresentHasLatest(b, id);
    if b == [] {
      assert a + b == a;
    } else {
      var n := |b| - 1;
      assert (a + b)[..|a + b| - 1] == a + b[..n];
      LatestEventConcat(a, b[..n], id);
      PresentHasLatest(b[..n], id);
    }
  }

  /** In a batch without repeated ids, each event is the latest with its id. */
  lemma {:induction false} EachIsLatest(batch: seq<RecordedEvent>, k: nat)
    requires k < |batch| && forall i, j | 0 <= i < j < |batch| :: batch[i].eventId != batch[j].eventId
    ensures LatestEvent(batch, batch[k].eventId) == Some(batch[k])
  {
    if k < |batch| - 1 {
      EachIsLatest(batch[..|batch| - 1], k);
    }
  }

  /** In a log that goes on from a written batch without one of its ids, the latest event with it is the batch's. */
  lemma WrittenStaysLatest(w: State, s: Stamped, k: nat, more: seq<RecordedEvent>)
    requires Admitted(w.log, s.request) && Writes(w, s) && k < |s.request.events|
    requires s.request.events[k].eventId !in Ids(more)
    ensures var events, batch := Process(w, s).state.log.events + more, Process(w, s).published;
            && |batch| == |s.request.events|
            && batch[0].globalPosition < |events|
            && s.request.events[k].eventId in Ids(events)
            && LatestEvent(events, s.request.events[k].eventId) == Some(batch[k])
  {
    hide Process, Accesses, Latest, LatestEvent, Append, AccessAll;
    var batch, id := Process(w, s).published, s.request.events[k].eventId;
    WrittenIsLatest(w, s, k);
    ProcessPublishes(w, s);
    EachIsLatest(batch, k);
    assert Ids(batch)[k] == id;
    LatestEventConcat(w.log.events, batch, id);
    LatestEventConcat(w.log.events + batch, more, id);
    PresentHasLatest(w.log.events + batch + more, id);
  }

  /**
   * Retries over restarts. A request wrote its batch; the log went on from there with any events but one of its ids,
   * over any requests and any number of restarts; the server restarted on it; and any requests followed that did not
   * write the id either. A request starting with the id is then answered as the original was if and only if the batch
   * had one event and fewer than `capacity` distinct other ids were touched since. Inside that window a longer batch
   * is answered with the one event alone.
   */
  lemma RetryAfterRestart(w: State, s: Stamped, k: nat, more: seq<RecordedEvent>, capacity: nat, file: seq<byte>,
                          log: Log, later: seq<Stamped>, retry: Stamped)
    requires capacity > 0 && Admitted(w.log, s.request) && Writes(w, s) && k < |s.request.events|
    requires log.events == Process(w, s).state.log.events + more && s.request.events[k].eventId !in Ids(more)
    requires var start := Spawn(file, log, capacity);
             && AllAdmitted(start, later)
             && s.request.events[k].eventId !in Ids(ProcessAll(start, later).published)
             && Admitted(ProcessAll(start, later).state.log, retry.request)
    requires UniqueIds(retry.request.events) && retry.request.events[0].eventId == s.request.events[k].eventId
    ensures var original := Process(w, s);
            var start := Spawn(file, log, capacity);
            var before := ProcessAll(start, later).state;
            var touched := Touched(capacity, SeedAccesses(log.events) + AccessesAll(start, later));
            var outcome, window := Process(before, retry), |Since(touched, s.request.events[k].eventId)| < capacity;
            && (outcome.response == original.response <==> |s.request.events| == 1 && window)
            && |original.published| == |s.request.events|
            && (window ==>
                && outcome.response == Ok([original.published[k]])
                && outcome.published == []
                && outcome.state == before.(dedup := outcome.state.dedup))
  {
    hide AccessAll, Process, Accesses, Since, Touched, Writes, LatestEvent, Admitted;
    var original := Process(w, s);
    var start := Spawn(file, log, capacity);
    var before := ProcessAll(start, later).state;
    ProcessPublishes(w, s);
    WrittenStaysLatest(w, s, k, more);
    RunPublishes(start, later);
    NonEmpty(before.log, retry.request);
    AnswersAfterRestart(capacity, file, log, later, retry);
    assert [original.published[k]] == original.published <==> |original.published| == 1;
    if Cached(before.dedup, retry.request.events).None? {
      NewAnswerDiffers(before, retry, original.published);
    }
  }

  lemma NonEmpty(log: Log, r: Request)
    requires Admitted(log, r)
    ensures r.events != []
  {}

  /** Right after a restart the last event of the log is cached, whatever the capacity. */
  lemma LastIsCached(capacity: nat, file: seq<byte>, log: Log, proposed: seq<ProposedEvent>)
    requires capacity > 0 && log.events != [] && proposed != []
    requires proposed[0].eventId == log.events[|log.events| - 1].eventId
    ensures Cached(Spawn(file, log, capacity).dedup, proposed) == Some([log.events[|log.events| - 1]])
  {
    hide AccessAll;
    var n := |log.events| - 1;
    assert Ids(log.events)[n] == proposed[0].eventId;
    SeededExact(capacity, log.events, proposed[0].eventId);
  }

  /** So is a last batch no larger than the capacity, by its first event. */
  lemma LastBatchIsCached(capacity: nat, file: seq<byte>, log: Log, batch: seq<RecordedEvent>,
                          proposed: seq<ProposedEvent>)
    requires batch != [] && |batch| <= capacity && proposed != [] && log.events == batch
    requires forall i, j | 0 <= i < j < |batch| :: batch[i].eventId != batch[j].eventId
    requires proposed[0].eventId == batch[0].eventId
    ensures Cached(Spawn(file, log, capacity).dedup, proposed) == Some([batch[0]])
  {
    hide AccessAll;
    assert Ids(batch)[0] == batch[0].eventId;
    EachIsLatest(batch, 0);
    SinceFirst(Ids(batch));
    SeededExact(capacity, batch, batch[0].eventId);
  }

  lemma {:induction false} SinceFirst(touched: seq<Uuid>)
    requires touched != []
    ensures |Since(touched, touched[0])| < |touched|
  {
    if |touched| > 1 {
      SinceFirst(touched[..|touched| - 1]);
    }
  }
}
