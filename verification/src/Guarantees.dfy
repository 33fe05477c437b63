/** What every run of a new server guarantees: layers in step, concurrency control, gap-free subscriptions, retries. */
module Guarantees {
  import opened Types
  import opened Index
  import opened Appending
  import opened Dedup
  import opened System
  import opened Preservation
  import D = Durability
  import L = Losses
  import Retries

  /**
   * In every state a server can be in while it is up: opening its file would give back exactly the written batches
   * and cut nothing; durable and indexed events are prefixes of the written ones; the ring carries exactly the
   * events indexed since the start and published so far; and every cached answer is a slice of the log.
   */
  lemma Layers(cacheCapacity: nat, ringCapacity: nat, labels: seq<Label>)
    requires cacheCapacity > 0 && ringCapacity > 0 && Runs(Init(cacheCapacity, ringCapacity), labels)
    requires !After(Init(cacheCapacity, ringCapacity), labels).phase.Down?
    ensures var s := After(Init(cacheCapacity, ringCapacity), labels);
            && R.OpenFile(s.file) == Ok((s.written, |s.file|))
            && s.synced >= 8 && Durable(s) <= R.Flatten(s.written)
            && s.log.events <= R.Flatten(s.written)
            && s.base + s.ring.tail <= |s.log.events|
            && B.Carries(s.ring, s.log.events[s.base..s.base + s.ring.tail])
            && s.log.streams == IndexOf(s.log.events) && WellPositioned(s.log.events)
            && AgreesWith(s.dedup, s.log.events)
            && (s.phase.Idle? ==> s.log.events == R.Flatten(s.written) && s.base + s.ring.tail == |s.log.events|)
  {
    hide Runs, After, Init, SysOk, Durable, R.OpenFile, R.Flatten, WellPositioned, IndexOf, B.Carries, AgreesWith;
    ReachableOk(cacheCapacity, ringCapacity, labels);
    LayersHold(After(Init(cacheCapacity, ringCapacity), labels));
  }

  lemma LayersHold(s: Sys)
    requires SysOk(s) && !s.phase.Down?
    ensures R.OpenFile(s.file) == Ok((s.written, |s.file|))
    ensures s.synced >= 8 && Durable(s) <= R.Flatten(s.written)
    ensures s.log.events <= R.Flatten(s.written)
    ensures s.base + s.ring.tail <= |s.log.events|
    ensures B.Carries(s.ring, s.log.events[s.base..s.base + s.ring.tail])
    ensures s.log.streams == IndexOf(s.log.events) && WellPositioned(s.log.events)
    ensures AgreesWith(s.dedup, s.log.events)
    ensures s.phase.Idle? ==> s.log.events == R.Flatten(s.written) && s.base + s.ring.tail == |s.log.events|
  {
    hide Durable, R.FileBytes, R.Flatten, R.WritableBatch, R.OpenFile, WellPositioned, IndexOf, Append, W.Admitted,
         AnswersOk, B.Carries, U.SubOk, AgreesWith, LiesIn, Accepted;
    var file := R.FileBytes(s.written);
    assert s.file == file[..|file|] == file;
    R.OpenWritten(s.written);
    D.DurableWhole(s);
  }

  /**
   * Optimistic concurrency over whole runs, restarts included: of the acknowledged requests that wrote to a
   * stream, no two carried the same exact version, and no two carried `NoStream`.
   */
  lemma OptimisticConcurrency(cacheCapacity: nat, ringCapacity: nat, labels: seq<Label>, i: nat, j: nat)
    requires cacheCapacity > 0 && ringCapacity > 0 && Runs(Init(cacheCapacity, ringCapacity), labels)
    requires var answers := After(Init(cacheCapacity, ringCapacity), labels).answers;
             && i < j < |answers| && answers[i].wrote && answers[j].wrote
             && answers[i].request.stream == answers[j].request.stream
             && answers[i].request.expected == answers[j].request.expected
    ensures After(Init(cacheCapacity, ringCapacity), labels).answers[i].request.expected.Any?
  {
    hide Runs, After, Init, SysOk;
    ReachableOk(cacheCapacity, ringCapacity, labels);
    NoSharedVersion(After(Init(cacheCapacity, ringCapacity), labels), i, j);
  }

  lemma NoSharedVersion(s: Sys, i: nat, j: nat)
    requires SysOk(s) && i < j < |s.answers| && s.answers[i].wrote && s.answers[j].wrote
    requires s.answers[i].request.stream == s.answers[j].request.stream
    requires s.answers[i].request.expected == s.answers[j].request.expected
    ensures s.answers[i].request.expected.Any?
  {
    hide R.FileBytes, R.Flatten, R.WritableBatch, R.Whole, WellPositioned, ServerOk, PhaseOk, Durable, Answered,
         Project;
    var a, b := s.answers[i].response.value[0], s.answers[j].response.value[0];
    D.DurablePositions(s);
    assert In(a, Durable(s)) && In(b, Durable(s));
    ProjectAtVersion(Durable(s), a.globalPosition);
    ProjectAtVersion(Durable(s), b.globalPosition);
  }

  /**
   * In every run, every subscriber has seen consecutive events of its view, each once, starting where it asked
   * when that was already published; and its messages have the promised shape.
   */
  lemma SubscribersSeeNoGap(cacheCapacity: nat, ringCapacity: nat, labels: seq<Label>, i: nat)
    requires cacheCapacity > 0 && ringCapacity > 0 && Runs(Init(cacheCapacity, ringCapacity), labels)
    requires var t := After(Init(cacheCapacity, ringCapacity), labels); !t.phase.Down? && i < |t.subs|
    ensures var t := After(Init(cacheCapacity, ringCapacity), labels);
            var sub := t.subs[i];
            && t.base + sub.registered <= |t.log.events|
            && U.NoGap(sub, U.View(t.log.events, sub.target), U.Reach(t.log.events, t.base, sub.registered, sub.target))
            && U.Shaped(sub.out)
  {
    hide Runs, After, Init, SysOk, U.SubOk, U.Serves, U.NoGap, U.Shaped, U.Reach, U.View;
    var t := After(Init(cacheCapacity, ringCapacity), labels);
    ReachableOk(cacheCapacity, ringCapacity, labels);
    SubInOrder(t, i);
    U.DeliveryExact(t.subs[i], t.log, t.base, t.ring);
    SubShaped(t.subs[i], t.log, t.base, t.ring);
  }

  lemma SubInOrder(s: Sys, i: nat)
    requires SysOk(s) && !s.phase.Down? && i < |s.subs|
    ensures U.Serves(s.log, s.base, s.ring) && U.SubOk(s.subs[i], s.log, s.base, s.ring)
    ensures s.base + s.subs[i].registered <= |s.log.events|
  {
    hide FileOk, PhaseOk, AnswersOk, AgreesWith, U.Follows, Consistent, B.Carries;
  }

  lemma SubShaped(sub: U.Sub, log: Log, base: nat, ring: B.Ring)
    requires U.Serves(log, base, ring) && U.SubOk(sub, log, base, ring)
    ensures U.Shaped(sub.out)
  {
    hide Consistent, B.Carries, U.Follows, U.Shaped, U.View;
    U.TraceShape(sub, U.View(log.events, sub.target),
                 U.Reach(log.events, base, sub.registered, sub.target),
                 U.Reach(log.events, base, sub.next, sub.target));
  }

  // ------------------------------------------------------------- the steps refine one writer turn

  function Publishes(n: nat): (r: seq<Label>)
    ensures |r| == n
  {
    seq(n, i => PublishNext)
  }

  lemma PublishStep(s: Sys)
    requires s.phase.Publishing? && s.phase.sent < |s.phase.batch|
    ensures Enabled(s, PublishNext)
    ensures Step(s, PublishNext)
            == s.(ring := B.Send(s.ring, s.phase.batch[s.phase.sent]), phase := s.phase.(sent := s.phase.sent + 1))
  {
    hide B.Send;
  }

  lemma {:induction false} PublishRun(s: Sys, n: nat)
    requires s.phase.Publishing? && s.phase.sent == 0 && n <= |s.phase.batch|
    ensures Runs(s, Publishes(n))
    ensures After(s, Publishes(n)) == s.(ring := B.SendAll(s.ring, s.phase.batch[..n]), phase := s.phase.(sent := n))
    decreases n
  {
    hide Step, Enabled, B.Send;
    if n > 0 {
      PublishRun(s, n - 1);
      PublishStep(After(s, Publishes(n - 1)));
      assert Publishes(n) == Publishes(n - 1) + [PublishNext];
      OneMore(s, Publishes(n - 1), PublishNext);
      assert s.phase.batch[..n][..n - 1] == s.phase.batch[..n - 1];
    }
  }

  /**
   * Left alone, the steps of a write amount to one turn of the writer loop: same file, log and cache, the whole
   * batch sent to the ring in order, and the same answer.
   */
  lemma UninterruptedWrite(s: Sys, stamped: W.Stamped)
    requires s.phase.Idle? && Enabled(s, Submit(stamped)) && W.Writes(WriterState(s), stamped)
    ensures var o := W.Process(WriterState(s), stamped);
            var labels := [Submit(stamped), Sync, IndexBatch] + Publishes(|o.published|) + [Respond];
            && Runs(s, labels)
            && var t := After(s, labels);
               && WriterState(t) == o.state
               && t.ring == B.SendAll(s.ring, o.published)
               && t.phase.Idle? && t.synced == |t.file| && t.cacheCapacity == s.cacheCapacity
               && t.answers == s.answers + [Answer(stamped.request, o.response, true)]
  {
    SubmitAdmitted(s, stamped);
    hide Step, Enabled, Runs, After, W.Process, B.SendAll;
    var o := W.Process(WriterState(s), stamped);
    var first := [Submit(stamped), Sync, IndexBatch];
    IndexedWrite(s, stamped);
    ThreeSteps(s, Submit(stamped), Sync, IndexBatch);
    var indexed := After(s, first);
    PublishRun(indexed, |o.published|);
    assert o.published[..|o.published|] == o.published;
    RunsConcat(s, first, Publishes(|o.published|));
    var published := After(s, first + Publishes(|o.published|));
    assert Enabled(published, Respond) by { RespondEnabled(published); }
    OneMore(s, first + Publishes(|o.published|), Respond);
    RespondStep(published);
  }

  lemma SubmitAdmitted(s: Sys, stamped: W.Stamped)
    requires Enabled(s, Submit(stamped))
    ensures W.Admitted(s.log, stamped.request)
  {}

  lemma RespondEnabled(s: Sys)
    requires s.phase.Publishing? && s.phase.sent == |s.phase.batch|
    ensures Enabled(s, Respond)
  {}

  lemma RespondStep(s: Sys)
    requires Enabled(s, Respond)
    ensures var t := Step(s, Respond);
            && WriterState(t) == WriterState(s) && t.ring == s.ring && t.phase.Idle? && t.synced == s.synced
            && t.cacheCapacity == s.cacheCapacity
            && t.answers == s.answers + [Answer(s.phase.stamped.request, Ok(s.phase.batch), true)]
  {
    hide SubmitStep, RestartStep;
  }

  /** After write, sync and index, file, log and cache are those of the whole turn. */
  lemma IndexedWrite(s: Sys, stamped: W.Stamped)
    requires s.phase.Idle? && Enabled(s, Submit(stamped)) && W.Writes(WriterState(s), stamped)
    ensures var o, s1 := W.Process(WriterState(s), stamped), Step(s, Submit(stamped));
            && Enabled(s1, Sync) && Enabled(Step(s1, Sync), IndexBatch)
            && o.response == Ok(o.published)
            && var t := Step(Step(s1, Sync), IndexBatch);
               && t.phase == Publishing(stamped, o.published, 0)
               && WriterState(t) == o.state && t.ring == s.ring && t.answers == s.answers && t.synced == |t.file|
               && t.cacheCapacity == s.cacheCapacity
  {
    hide AccessAll, R.BatchBytes, Append, W.Admitted, RestartStep;
    var o := W.Process(WriterState(s), stamped);
    AccessAllConcat(s.dedup, CheckAccesses(stamped.request.events), RecordAccesses(o.published));
  }

  /**
   * What the law above does not promise: acknowledgements from the retry cache. A client's append with `NoStream` is
   * killed before its sync, acknowledged on retry and then lost, and another client's append with `NoStream` to the
   * same stream is accepted. Both clients have been told that they created the stream.
   */
  lemma StreamCreatedTwice(cacheCapacity: nat, ringCapacity: nat, a: W.Stamped, b: W.Stamped)
    requires cacheCapacity > 0 && ringCapacity > 0 && |a.request.events| == 1
    requires a.request.stream == b.request.stream && a.request.expected.NoStream? && b.request.expected.NoStream?
    requires W.Admitted(Log([], map[]), a.request) && W.Writes(WriterState(Init(cacheCapacity, ringCapacity)), a)
    requires W.Admitted(Log([], map[]), b.request) && W.Writes(WriterState(Init(cacheCapacity, ringCapacity)), b)
    ensures var s := Init(cacheCapacity, ringCapacity);
            var lost := [Submit(a), Kill, Restart] + [Submit(a), PowerLoss(8), Restart];
            var write := [Submit(b), Sync, IndexBatch] + Publishes(|b.request.events|) + [Respond];
            && Runs(s, lost + write)
            && var answers := After(s, lost + write).answers;
               && |answers| == 2 && answers[0].request == a.request && answers[1].request == b.request
               && answers[0].response.Ok? && answers[1].response.Ok?
  {
    hide SysOk, Step, Enabled, Runs, After, W.Process, W.Admitted, W.Writes, W.UniqueIds, B.SendAll, Append,
         L.OpenedWith, Init;
    var s := Init(cacheCapacity, ringCapacity);
    var lost := [Submit(a), Kill, Restart] + [Submit(a), PowerLoss(8), Restart];
    L.AcknowledgedRetryIsLost(cacheCapacity, ringCapacity, a);
    var t := After(s, lost);
    WritesAgain(cacheCapacity, ringCapacity, t, b);
    UninterruptedWrite(t, b);
    var write := [Submit(b), Sync, IndexBatch] + Publishes(|b.request.events|) + [Respond];
    RunsConcat(s, lost, write);
  }

  /** A server opened on nothing takes the requests a new one takes. */
  lemma WritesAgain(cacheCapacity: nat, ringCapacity: nat, t: Sys, stamped: W.Stamped)
    requires L.OpenedWith(t, [], cacheCapacity) && W.Admitted(Log([], map[]), stamped.request)
    requires W.Writes(WriterState(Init(cacheCapacity, ringCapacity)), stamped)
    ensures t.phase.Idle? && Enabled(t, Submit(stamped)) && W.Writes(WriterState(t), stamped)
    ensures var o := W.Process(WriterState(t), stamped);
            o.response == Ok(o.published) && |o.published| == |stamped.request.events|
  {
    hide W.Process, W.Accesses, Append, Latest, R.FileBytes;
    assert SeedAccesses([]) == [];
    NoAccess(Empty(cacheCapacity));
    Retries.WrittenIsLatest(WriterState(t), stamped, 0);
    W.ProcessPublishes(WriterState(t), stamped);
  }

  // ------------------------------------------------------------------------- retries over a restart

  /**
   * Stopped between two requests, the server comes back with the same file and log, and the writer starts from
   * them.
   */
  lemma CleanRestart(s: Sys)
    requires SysOk(s) && s.phase.Idle?
    ensures Enabled(s, Kill) && Enabled(Step(s, Kill), Restart)
    ensures var t := Step(Step(s, Kill), Restart);
            && SysOk(t) && t.phase.Idle? && !t.ring.closed && t.written == s.written && t.answers == s.answers
            && WriterState(t) == W.Spawn(s.file, s.log, s.cacheCapacity)
  {
    hide R.FileBytes, R.Flatten, R.Whole, R.WritableBatch, R.OpenFile, WellPositioned, IndexOf, AccessAll,
         SeedAccesses, AnswersOk, B.Carries, U.SubOk, AgreesWith, RestartStep, SubmitStep;
    var down := Step(s, Kill);
    LayersHold(s);
    KillOk(s);
    RestartRecovers(down);
    RestartRebuilds(down);
    RestartOk(down);
  }

  /**
   * A batch of two or more, small enough for the cache: the request is answered with the whole batch, and after a
   * restart with its first event alone.
   */
  lemma RestartShortensAnswer(cacheCapacity: nat, ringCapacity: nat, stamped: W.Stamped)
    requires ringCapacity > 0 && W.Admitted(Log([], map[]), stamped.request)
    requires 2 <= |stamped.request.events| <= cacheCapacity
    requires W.Writes(WriterState(Init(cacheCapacity, ringCapacity)), stamped)
    ensures var s, r := Init(cacheCapacity, ringCapacity), stamped.request;
            var batch := W.Process(WriterState(s), stamped).published;
            var labels := [Submit(stamped), Sync, IndexBatch] + Publishes(|batch|) + [Respond]
                          + [Kill, Restart, Submit(stamped)];
            && Runs(s, labels) && |batch| >= 2
            && After(s, labels).answers == [Answer(r, Ok(batch), true), Answer(r, Ok([batch[0]]), false)]
  {
    hide SysOk, Step, Enabled, Runs, After, W.Process, W.Admitted, W.Writes, W.UniqueIds, B.SendAll, Append;
    var s := Init(cacheCapacity, ringCapacity);
    var o := W.Process(WriterState(s), stamped);
    FirstWrite(cacheCapacity, ringCapacity, stamped);
    InitOk(cacheCapacity, ringCapacity);
    UninterruptedWrite(s, stamped);
    var write := [Submit(stamped), Sync, IndexBatch] + Publishes(|o.published|) + [Respond];
    RunOk(s, write);
    RetryAfterCleanRestart(After(s, write), stamped);
    RunsConcat(s, write, [Kill, Restart, Submit(stamped)]);
    assert [] + [Answer(stamped.request, o.response, true)] + [Answer(stamped.request, Ok([o.published[0]]), false)]
           == [Answer(stamped.request, o.response, true), Answer(stamped.request, Ok([o.published[0]]), false)];
  }

  lemma FirstWrite(cacheCapacity: nat, ringCapacity: nat, stamped: W.Stamped)
    requires W.Admitted(Log([], map[]), stamped.request)
    requires W.Writes(WriterState(Init(cacheCapacity, ringCapacity)), stamped)
    ensures var s, events := Init(cacheCapacity, ringCapacity), stamped.request.events;
            var o := W.Process(WriterState(s), stamped);
            && s.phase.Idle? && s.answers == [] && s.cacheCapacity == cacheCapacity && Enabled(s, Submit(stamped))
            && W.UniqueIds(events) && 0 < |events| < 0x1_0000_0000
            && o.response == Ok(o.published) && o.state.log.events == o.published && |o.published| == |events|
            && forall i | 0 <= i < |events| :: o.published[i].eventId == events[i].eventId
  {
    hide W.Process, W.Accesses, Append, AccessAll, Latest;
    var s := Init(cacheCapacity, ringCapacity);
    Retries.WrittenIsLatest(WriterState(s), stamped, 0);
    W.ProcessPublishes(WriterState(s), stamped);
    assert [] + W.Process(WriterState(s), stamped).published == W.Process(WriterState(s), stamped).published;
  }

  /** A log that is one batch: after a restart, a retry of the batch is answered with its first event. */
  lemma RetryAfterCleanRestart(s: Sys, retry: W.Stamped)
    requires SysOk(s) && s.phase.Idle? && W.UniqueIds(retry.request.events)
    requires 0 < |retry.request.events| == |s.log.events| <= s.cacheCapacity && |s.log.events| < 0x1_0000_0000
    requires forall i | 0 <= i < |s.log.events| :: s.log.events[i].eventId == retry.request.events[i].eventId
    ensures var labels := [Kill, Restart, Submit(retry)];
            && Runs(s, labels)
            && After(s, labels).answers == s.answers + [Answer(retry.request, Ok([s.log.events[0]]), false)]
  {
    Retries.LastBatchIsCached(s.cacheCapacity, s.file, s.log, s.log.events, retry.request.events);
    hide SysOk, Step, Enabled, Runs, After, W.Spawn, Cached;
    CleanRestart(s);
    var t := Step(Step(s, Kill), Restart);
    L.SubmitEnabled(t, retry);
    L.AnsweredFromCache(t, retry);
    ThreeSteps(s, Kill, Restart, Submit(retry));
  }

  /** A request that starts that run: two events of type "A" with no content. */
  lemma SomePairWrites(cacheCapacity: nat, ringCapacity: nat) returns (stamped: W.Stamped)
    ensures W.Admitted(Log([], map[]), stamped.request) && |stamped.request.events| == 2
    ensures W.Writes(WriterState(Init(cacheCapacity, ringCapacity)), stamped)
  {
    hide BuildBatch;
    var a := [0, 0, 0, 0, 0, 0, 0, 0, 0, 0, 0, 0, 0, 0, 0, 0];
    var b := [1, 0, 0, 0, 0, 0, 0, 0, 0, 0, 0, 0, 0, 0, 0, 0];
    stamped := W.Stamped(W.Request(a, Any, [ProposedEvent(a, [0x41], [], []), ProposedEvent(b, [0x41], [], [])]), 0);
    assert a[0] != b[0];
    BuildBatchExact(stamped.request.events, a, 0, 0, 0);
  }
}
