/** Runs in which a client loses an event it was shown, or an append that was acknowledged. */
module Losses {
  import opened Types
  import opened Index
  import opened Appending
  import opened Dedup
  import opened System
  import opened Preservation
  import opened Durability
  import Retries

  /** The server is up with exactly these events, as if it had just been opened on them. */
  ghost predicate OpenedWith(t: Sys, events: seq<RecordedEvent>, capacity: nat) {
    && t.phase.Idle? && !t.ring.closed && t.cacheCapacity == capacity
    && t.log == Log(events, IndexOf(events)) && t.dedup == AccessAll(Empty(capacity), SeedAccesses(events))
  }

  /** After a power loss that takes everything that can be taken, `open` recovers exactly what was durable. */
  lemma WorstPowerLoss(s: Sys)
    requires SysOk(s)
    ensures Enabled(s, PowerLoss(s.synced)) && Enabled(Step(s, PowerLoss(s.synced)), Restart)
    ensures var t := Step(Step(s, PowerLoss(s.synced)), Restart);
            s.synced >= 8 && OpenedWith(t, Durable(s), s.cacheCapacity) && t.seen == s.seen && t.answers == s.answers
  {
    hide R.FileBytes, R.Whole, R.Flatten, R.WritableBatch, R.OpenFile, WellPositioned, ServerOk, PhaseOk, AnswersOk,
         AccessAll, IndexOf, SeedAccesses;
    var lost := Step(s, PowerLoss(s.synced));
    PowerLossOk(s, s.synced);
    RestartRecovers(lost);
  }

  lemma SameCapacity(s: Sys, l: Label)
    requires Enabled(s, l)
    ensures Step(s, l).cacheCapacity == s.cacheCapacity
  {
    hide W.Process, W.Writes, W.Admitted, Append, AccessAll, R.BatchBytes, R.OpenFile, R.Flatten, IndexOf, U.Poll,
         U.Readable, U.Delivered, ReadStream, ReadAll, EventSet, InRange, SeedAccesses, B.Send;
  }

  /** A step that keeps the file, and then the worst power loss: `open` recovers what was durable and no more. */
  lemma StepThenPowerLoss(t: Sys, l: Label)
    requires SysOk(t) && Enabled(t, l)
    requires var u := Step(t, l); u.file == t.file && u.synced == t.synced && u.written == t.written
    ensures t.synced >= 8
    ensures var labels := [l, PowerLoss(t.synced), Restart];
            && Runs(t, labels)
            && var u := After(t, labels);
               && OpenedWith(u, Durable(t), t.cacheCapacity)
               && u.seen == Step(t, l).seen && u.answers == Step(t, l).answers
  {
    hide SysOk, Durable, Step, Enabled, Runs, After, OpenedWith;
    SyncedHeader(t);
    var u := Step(t, l);
    StepOk(t, l);
    SameCapacity(t, l);
    SameDurable(t, u);
    WorstPowerLoss(u);
    ThreeSteps(t, l, PowerLoss(t.synced), Restart);
  }

  /** Whenever memory holds more than is durable, a client can read an event that a power loss then takes away. */
  lemma ExposedReadIsLost(t: Sys)
    requires SysOk(t) && !t.phase.Down? && !Covered(t)
    ensures var labels := [QueryAll(0, VEC_LIMIT), PowerLoss(t.synced), Restart];
            && Runs(t, labels)
            && var u := After(t, labels);
               && OpenedWith(u, Durable(t), t.cacheCapacity) && |u.log.events| < |t.log.events|
               && t.log.events[|t.log.events| - 1] in u.seen
  {
    hide SysOk, Durable, Runs, After, Step, Enabled;
    ExposedLast(t);
    ReadStep(t);
    StepThenPowerLoss(t, QueryAll(0, VEC_LIMIT));
  }

  /** A request that does not write changes neither file nor log nor what subscribers receive. */
  lemma RejectionChangesNothing(s: Sys, stamped: W.Stamped)
    requires Enabled(s, Submit(stamped)) && !W.Writes(WriterState(s), stamped)
    ensures var t := Step(s, Submit(stamped));
            && t.file == s.file && t.synced == s.synced && t.written == s.written && t.log == s.log
            && t.ring == s.ring && t.subs == s.subs && t.phase == s.phase
            && t.answers == s.answers + [Answer(stamped.request, W.Process(WriterState(s), stamped).response, false)]
            && WriterState(t) == W.Process(WriterState(s), stamped).state
  {
    hide AccessAll, Append, R.BatchBytes;
  }

  /** A request found in the cache is answered from it, and nothing else happens. */
  lemma AnsweredFromCache(s: Sys, retry: W.Stamped)
    requires Enabled(s, Submit(retry)) && W.UniqueIds(retry.request.events)
    requires Cached(s.dedup, retry.request.events).Some?
    ensures !W.Writes(WriterState(s), retry)
    ensures var t := Step(s, Submit(retry));
            && t.file == s.file && t.synced == s.synced && t.written == s.written && t.log == s.log && t.ring == s.ring
            && t.answers == s.answers + [Answer(retry.request, Ok(Cached(s.dedup, retry.request.events).value), false)]
  {
    hide AccessAll, Append, R.BatchBytes, Step;
    RejectionChangesNothing(s, retry);
  }

  /**
   * Nor is an acknowledged append safe then. A retry is answered from the cache with whatever is cached, and when that
   * is not durable, a power loss takes it away after the client has its answer.
   */
  lemma ExposedRetryIsLost(t: Sys, retry: W.Stamped)
    requires SysOk(t) && t.phase.Idle? && Enabled(t, Submit(retry)) && W.UniqueIds(retry.request.events)
    requires Cached(t.dedup, retry.request.events).Some?
    requires !LiesIn(Cached(t.dedup, retry.request.events).value, Durable(t))
    ensures var labels := [Submit(retry), PowerLoss(t.synced), Restart];
            && Runs(t, labels)
            && var u, batch := After(t, labels), Cached(t.dedup, retry.request.events).value;
               && u.answers == t.answers + [Answer(retry.request, Ok(batch), false)]
               && OpenedWith(u, Durable(t), t.cacheCapacity) && !LiesIn(batch, u.log.events)
  {
    AnsweredFromCache(t, retry);
    hide SysOk, Durable, Runs, After, SubmitStep, LiesIn, Cached, W.UniqueIds;
    StepThenPowerLoss(t, Submit(retry));
  }

  // ------------------------------------------------------------------------ a first batch, and a kill

  lemma FirstBatch(cacheCapacity: nat, ringCapacity: nat, stamped: W.Stamped)
    requires W.Admitted(Log([], map[]), stamped.request)
    requires W.Writes(WriterState(Init(cacheCapacity, ringCapacity)), stamped)
    ensures var r := stamped.request;
            && Append(Log([], map[]), r.stream, r.expected, stamped.at, r.events).Ok?
            && var batch := Append(Log([], map[]), r.stream, r.expected, stamped.at, r.events).value;
               && batch != [] && R.WritableBatch(batch) && |batch| == |r.events|
               && W.UniqueIds(r.events)
               && forall i | 0 <= i < |batch| :: batch[i].eventId == r.events[i].eventId
  {
    hide BuildBatch;
    var r := stamped.request;
    BuildBatchExact(r.events, r.stream, 0, 0, stamped.at);
  }

  /** Killed between the write and the sync of a first batch, the server comes back with the batch, still unsynced. */
  lemma KilledWriteComesBack(cacheCapacity: nat, ringCapacity: nat, stamped: W.Stamped)
    requires cacheCapacity > 0 && ringCapacity > 0 && W.Admitted(Log([], map[]), stamped.request)
    requires W.Writes(WriterState(Init(cacheCapacity, ringCapacity)), stamped)
    ensures var r := stamped.request;
            var batch := Append(Log([], map[]), r.stream, r.expected, stamped.at, r.events).value;
            var labels := [Submit(stamped), Kill, Restart];
            && Runs(Init(cacheCapacity, ringCapacity), labels)
            && var t := After(Init(cacheCapacity, ringCapacity), labels);
               && SysOk(t) && t.phase.Idle? && t.synced == 8 && Durable(t) == []
               && t.log.events == batch != [] && !t.ring.closed && t.answers == [] && t.seen == {}
               && t.cacheCapacity == cacheCapacity && t.dedup == W.Spawn(t.file, t.log, cacheCapacity).dedup
  {
    hide R.FileBytes, R.BatchBytes, R.OpenFile, R.Whole, Append, W.Admitted, W.Writes, AccessAll, IndexOf,
         R.WritableBatch, SeedAccesses, SysOk, Runs, After;
    var s0, r := Init(cacheCapacity, ringCapacity), stamped.request;
    FirstBatch(cacheCapacity, ringCapacity, stamped);
    AdmittedFits(Log([], map[]), r);
    var batch := Append(s0.log, r.stream, r.expected, stamped.at, r.events).value;
    var file := R.FileBytes([batch]);
    FileGrows([], batch);
    assert [] + [batch] == [batch];
    FileSize([]);
    NoBatches();
    R.OpenWritten([batch]);
    assert file[..|file|] == file;
    assert Step(s0, Submit(stamped)).file == file;
    assert R.Flatten([batch]) == batch;
    ThreeSteps(s0, Submit(stamped), Kill, Restart);
    ReachableOk(cacheCapacity, ringCapacity, [Submit(stamped), Kill, Restart]);
    NothingSynced([batch]);
  }

  lemma NothingSynced(batches: seq<seq<RecordedEvent>>)
    ensures R.Flatten(batches[..R.Whole(batches, 0)]) == []
  {
    hide R.BatchBytes, R.RecordsBytes;
    if batches != [] {
      R.BatchSize(batches[0]);
    }
  }

  lemma SubmitEnabled(s: Sys, stamped: W.Stamped)
    requires SysOk(s) && s.phase.Idle? && !s.ring.closed
    requires 0 < |stamped.request.events| < 0x1_0000_0000 && |s.log.events| + |stamped.request.events| <= VEC_LIMIT
    ensures Enabled(s, Submit(stamped))
  {
    hide FileOk, PhaseOk, AnswersOk, U.SubOk, AgreesWith, B.Carries, WellPositioned, IndexOf;
    ConsistentFits(s.log, stamped.request.stream, stamped.request.events);
  }

  /** A client reads the batch, power is lost, and the event the client has is gone. */
  lemma KillInWindowLosesEvents(cacheCapacity: nat, ringCapacity: nat, stamped: W.Stamped)
    requires cacheCapacity > 0 && ringCapacity > 0 && W.Admitted(Log([], map[]), stamped.request)
    requires W.Writes(WriterState(Init(cacheCapacity, ringCapacity)), stamped)
    ensures var labels := [Submit(stamped), Kill, Restart] + [QueryAll(0, VEC_LIMIT), PowerLoss(8), Restart];
            && Runs(Init(cacheCapacity, ringCapacity), labels)
            && var t := After(Init(cacheCapacity, ringCapacity), labels);
               t.phase.Idle? && t.log.events == [] && t.seen != {}
  {
    KilledWriteComesBack(cacheCapacity, ringCapacity, stamped);
    hide SysOk, Durable, Step, W.Writes, W.Admitted, Runs, After, Append, Init;
    var s := Init(cacheCapacity, ringCapacity);
    var t := After(s, [Submit(stamped), Kill, Restart]);
    ExposedReadIsLost(t);
    RunsConcat(s, [Submit(stamped), Kill, Restart], [QueryAll(0, VEC_LIMIT), PowerLoss(8), Restart]);
  }

  lemma OnlyIsCached(t: Sys, capacity: nat, proposed: seq<ProposedEvent>)
    requires t.dedup == W.Spawn(t.file, t.log, capacity).dedup && capacity > 0
    requires |t.log.events| == |proposed| == 1 && proposed[0].eventId == t.log.events[0].eventId
    ensures Cached(t.dedup, proposed) == Some(t.log.events)
  {
    hide W.Spawn;
    Retries.LastIsCached(capacity, t.file, t.log, proposed);
    assert t.log.events == [t.log.events[0]];
  }

  /** A retry of the only event in memory, which is not durable. */
  lemma RetryOfOnly(t: Sys, retry: W.Stamped)
    requires SysOk(t) && t.phase.Idle? && !t.ring.closed && t.synced == 8 && Durable(t) == []
    requires |t.log.events| == |retry.request.events| == 1
    requires Cached(t.dedup, retry.request.events) == Some(t.log.events)
    ensures var labels := [Submit(retry), PowerLoss(8), Restart];
            && Runs(t, labels)
            && var u := After(t, labels);
               && OpenedWith(u, [], t.cacheCapacity)
               && u.answers == t.answers + [Answer(retry.request, Ok(t.log.events), false)]
  {
    hide SysOk, Durable, Step, Enabled, Runs, After, Cached, OpenedWith;
    SubmitEnabled(t, retry);
    ExposedRetryIsLost(t, retry);
  }

  /**
   * The client retries its append of one event, gets it acknowledged, power is lost, and the acknowledged event
   * is gone.
   */
  lemma AcknowledgedRetryIsLost(cacheCapacity: nat, ringCapacity: nat, stamped: W.Stamped)
    requires cacheCapacity > 0 && ringCapacity > 0 && W.Admitted(Log([], map[]), stamped.request)
    requires W.Writes(WriterState(Init(cacheCapacity, ringCapacity)), stamped) && |stamped.request.events| == 1
    ensures var r := stamped.request;
            var batch := Append(Log([], map[]), r.stream, r.expected, stamped.at, r.events).value;
            var labels := [Submit(stamped), Kill, Restart] + [Submit(stamped), PowerLoss(8), Restart];
            && Runs(Init(cacheCapacity, ringCapacity), labels)
            && var t := After(Init(cacheCapacity, ringCapacity), labels);
               OpenedWith(t, [], cacheCapacity) && t.answers == [Answer(r, Ok(batch), false)] && batch != []
  {
    hide SysOk, Durable, Step, W.Writes, W.Admitted, Runs, After, Append, Init, W.Spawn, Cached, LiesIn, OpenedWith;
    KilledWriteComesBack(cacheCapacity, ringCapacity, stamped);
    FirstBatch(cacheCapacity, ringCapacity, stamped);
    var s := Init(cacheCapacity, ringCapacity);
    var t := After(s, [Submit(stamped), Kill, Restart]);
    OnlyIsCached(t, cacheCapacity, stamped.request.events);
    RetryOfOnly(t, stamped);
    RunsConcat(s, [Submit(stamped), Kill, Restart], [Submit(stamped), PowerLoss(8), Restart]);
  }

  /** A request that starts these runs, for any stream and event id: create the stream with an event of type "A". */
  lemma SomeRequestWrites(cacheCapacity: nat, ringCapacity: nat, stream: Uuid, id: Uuid) returns (stamped: W.Stamped)
    ensures W.Admitted(Log([], map[]), stamped.request) && |stamped.request.events| == 1
    ensures stamped.request.stream == stream && stamped.request.expected.NoStream?
    ensures stamped.request.events[0].eventId == id
    ensures W.Writes(WriterState(Init(cacheCapacity, ringCapacity)), stamped)
  {
    hide BuildBatch;
    stamped := W.Stamped(W.Request(stream, NoStream, [ProposedEvent(id, [0x41], [], [])]), 0);
    BuildBatchExact(stamped.request.events, stream, 0, 0, 0);
  }
}
