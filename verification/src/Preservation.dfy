/** Every step of the system keeps its invariant, and what is durable stays durable. */
module Preservation {
  import opened Bytes
  import opened Types
  import opened Index
  import opened Appending
  import opened Dedup
  import opened System

  // --------------------------------------------------------------------------- durability only grows

  lemma FlattenPrefix(batches: seq<seq<RecordedEvent>>, i: nat, j: nat)
    requires i <= j <= |batches|
    ensures R.Flatten(batches[..i]) <= R.Flatten(batches[..j])
  {
    assert batches[..j] == batches[..i] + batches[i..j];
    R.FlattenAppend(batches[..i], batches[i..j]);
  }

  lemma DurablePrefix(written: seq<seq<RecordedEvent>>, n: nat, written': seq<seq<RecordedEvent>>, n': nat)
    requires var k := R.Whole(written, n);
             && k <= |written'| && written'[..k] == written[..k]
             && |R.BatchesBytes(written[..k])| <= n'
    ensures R.Flatten(written[..R.Whole(written, n)]) <= R.Flatten(written'[..R.Whole(written', n')])
  {
    hide R.BatchesBytes, R.Whole;
    var k := R.Whole(written, n);
    R.WholeExact(written', n', k);
    FlattenPrefix(written', k, R.Whole(written', n'));
  }

  lemma FileSize(batches: seq<seq<RecordedEvent>>)
    ensures |R.FileBytes(batches)| == 8 + |R.BatchesBytes(batches)|
  {
    hide R.BatchesBytes;
  }

  /** When everything is synced, everything written is durable. */
  lemma AllDurable(s: Sys)
    requires s.synced >= 8 && s.synced == |R.FileBytes(s.written)|
    ensures Durable(s) == R.Flatten(s.written)
  {
    hide R.BatchesBytes, R.Whole, R.FileBytes;
    FileSize(s.written);
    assert s.written[..|s.written|] == s.written;
    R.WholeExact(s.written, s.synced - 8, |s.written|);
  }

  lemma FileGrows(batches: seq<seq<RecordedEvent>>, batch: seq<RecordedEvent>)
    ensures R.FileBytes(batches + [batch]) == R.FileBytes(batches) + R.BatchBytes(batch)
    ensures R.Flatten(batches + [batch]) == R.Flatten(batches) + batch
  {
    hide R.BatchesBytes, R.BatchBytes;
    R.BatchesBytesAppend(batches, batch);
    R.FlattenAppend(batches, [batch]);
    assert R.Flatten([batch]) == batch;
  }

  lemma PrefixFile(batches: seq<seq<RecordedEvent>>, i: nat, j: nat)
    requires i <= j <= |batches|
    ensures |R.FileBytes(batches[..i])| <= |R.FileBytes(batches[..j])|
    ensures R.FileBytes(batches[..i]) <= R.FileBytes(batches[..j])
    decreases j - i
  {
    hide R.FileBytes, R.Flatten;
    if i < j {
      PrefixFile(batches, i, j - 1);
      assert batches[..j] == batches[..j - 1] + [batches[j - 1]];
      FileGrows(batches[..j - 1], batches[j - 1]);
    }
  }

  /** Restarting recovers exactly the whole batches of the file; it never fails. */
  lemma RestartRecovers(s: Sys)
    requires FileOk(s)
    ensures var k := R.Whole(s.written, |s.file| - 8);
            && R.OpenFile(s.file) == Ok((s.written[..k], |R.FileBytes(s.written[..k])|))
            && s.file[..|R.FileBytes(s.written[..k])|] == R.FileBytes(s.written[..k])
  {
    hide R.OpenFile, R.FileBytes, R.Whole, R.WritableBatch, R.Flatten, WellPositioned;
    R.OpenCut(s.written, |s.file|);
    var k := R.Whole(s.written, |s.file| - 8);
    PrefixFile(s.written, k, |s.written|);
    assert s.written[..|s.written|] == s.written;
    var n := |R.FileBytes(s.written[..k])|;
    assert s.file[..n] == R.FileBytes(s.written)[..|s.file|][..n] == R.FileBytes(s.written)[..n];
  }

  /** In every step, including crashes and restarts, what is durable stays durable at the same positions. */
  lemma DurableGrows(s: Sys, l: Label)
    requires SysOk(s) && Enabled(s, l)
    ensures Step(s, l).synced >= 8
    ensures Durable(s) <= Durable(Step(s, l))
  {
    hide R.OpenFile, R.FileBytes, R.BatchesBytes, R.BatchBytes, R.Whole, R.Flatten, WellPositioned, R.WritableBatch,
         ServerOk, PhaseOk, AnswersOk, W.Process, W.Admitted, AccessAll, IndexOf, U.Poll, U.Readable, ReadStream,
         ReadAll, Append, EventSet, U.Delivered;
    var k := R.Whole(s.written, s.synced - 8);
    R.WholeExact(s.written, s.synced - 8, k);
    match l {
      case Submit(stamped) =>
        if W.Writes(WriterState(s), stamped) {
          var written' := Step(s, l).written;
          assert written'[..k] == s.written[..k];
          DurablePrefix(s.written, s.synced - 8, written', s.synced - 8);
        }
      case Sync => DurablePrefix(s.written, s.synced - 8, s.written, |s.file| - 8);
      case PowerLoss(cut) => DurablePrefix(s.written, s.synced - 8, s.written, cut - 8);
      case Restart =>
        RestartRecovers(s);
        var j := R.Whole(s.written, |s.file| - 8);
        R.WholeMonotone(s.written, s.synced - 8, |s.file| - 8);
        PrefixFile(s.written, k, j);
        FileSize(s.written[..k]);
        FileSize(s.written[..j]);
        assert s.written[..j][..k] == s.written[..k];
        DurablePrefix(s.written, s.synced - 8, s.written[..j], Step(s, l).synced - 8);
      case _ =>
    }
  }

  // -------------------------------------------------------------------------- carrying history along

  lemma InPrefix(e: RecordedEvent, a: seq<RecordedEvent>, b: seq<RecordedEvent>)
    requires In(e, a) && a <= b
    ensures In(e, b)
  {}

  lemma LiesInPrefix(batch: seq<RecordedEvent>, a: seq<RecordedEvent>, b: seq<RecordedEvent>)
    requires LiesIn(batch, a) && a <= b
    ensures LiesIn(batch, b)
  {
    var p := batch[0].globalPosition;
    assert b[p..p + |batch|] == a[p..p + |batch|];
  }

  lemma AnswersCarry(s: Sys, s': Sys)
    requires s.synced >= 8 && s'.synced >= 8 && AnswersOk(s)
    requires s'.answers == s.answers && Durable(s) <= Durable(s')
    requires Answered(s') >= Answered(s) || Answered(s') >= |Durable(s)|
    ensures AnswersOk(s')
  {
    hide Durable, Answered, Accepted;
    forall i | 0 <= i < |s.answers| && s.answers[i].wrote
      ensures LiesIn(s.answers[i].response.value, Durable(s'))
    {
      LiesInPrefix(s.answers[i].response.value, Durable(s), Durable(s'));
    }
  }

  /** What clients have been shown is no part of the invariant. */
  lemma ShowOk(s: Sys, shown: set<RecordedEvent>)
    requires SysOk(s)
    ensures SysOk(s.(seen := s.seen + shown))
  {
    hide R.FileBytes, R.Whole, R.Flatten, WellPositioned, R.WritableBatch, In, W.Admitted, Append, U.Serves, U.SubOk,
         AgreesWith, LiesIn, Accepted, AnswersOk;
    AnswersCarry(s, s.(seen := s.seen + shown));
  }

  // ------------------------------------------------------------------------------ the writer's steps

  lemma AnsweredAtOnceOk(s: Sys, stamped: W.Stamped)
    requires SysOk(s) && Enabled(s, Submit(stamped)) && !W.Writes(WriterState(s), stamped)
    ensures SysOk(Step(s, Submit(stamped)))
  {
    hide R.FileBytes, R.Whole, R.Flatten, R.WritableBatch, In, W.Admitted, Append, U.SubOk, LiesIn, Accepted,
         AccessAll, W.Accesses, W.Writes, W.Process, IndexOf, B.Carries, WellPositioned;
    var w, r := WriterState(s), stamped.request;
    var o := W.Process(w, stamped);
    W.ProcessPublishes(w, stamped);
    NoPuts(w, stamped);
    assert s.log.events + [] == s.log.events;
    AccessesKeepAgreement(s.dedup, W.Accesses(w, stamped), s.log.events, []);
    var shown := if o.response.Ok? then EventSet(o.response.value) else {};
    ShowOk(s, shown);
    var s1 := s.(seen := s.seen + shown);
    var s2 := Step(s, Submit(stamped));
    assert s2 == s1.(dedup := o.state.dedup, answers := s.answers + [Answer(r, o.response, false)]);
    assert AnswersOk(s2) by { AnswersCarry(s, s2.(answers := s.answers)); }
  }

  lemma NoPuts(w: W.State, stamped: W.Stamped)
    requires W.Admitted(w.log, stamped.request) && !W.Writes(w, stamped)
    ensures forall a <- W.Accesses(w, stamped) :: !a.Put?
  {
    hide Append;
  }

  lemma WriteOk(s: Sys, stamped: W.Stamped)
    requires SysOk(s) && Enabled(s, Submit(stamped)) && W.Writes(WriterState(s), stamped)
    ensures SysOk(Step(s, Submit(stamped)))
  {
    hide R.FileBytes, R.BatchBytes, R.Whole, R.Flatten, R.WritableBatch, In, Append, U.SubOk, LiesIn, Accepted,
         AccessAll, IndexOf, B.Carries, WellPositioned, AgreesWith, AnswersOk, RestartStep;
    var r := stamped.request;
    var batch := Append(s.log, r.stream, r.expected, stamped.at, r.events).value;
    var s' := Step(s, Submit(stamped));
    DurableGrows(s, Submit(stamped));
    AppendKeepsConsistent(s.log, r.stream, r.expected, stamped.at, r.events);
    FileGrows(s.written, batch);
    assert s.log.events + [] == s.log.events;
    AccessesKeepAgreement(s.dedup, CheckAccesses(r.events), s.log.events, []);
    assert s'.file == R.FileBytes(s'.written)[..|s'.file|];
    assert s'.written[..|s'.written| - 1] == s.written;
    AnswersCarry(s, s');
  }

  lemma SyncOk(s: Sys)
    requires SysOk(s) && Enabled(s, Sync)
    ensures SysOk(Step(s, Sync))
  {
    hide R.FileBytes, R.Whole, R.Flatten, R.WritableBatch, In, Append, U.Serves, U.SubOk, LiesIn, Accepted,
         WellPositioned, AgreesWith, W.Admitted, AnswersOk, SubmitStep, RestartStep;
    DurableGrows(s, Sync);
    AnswersCarry(s, Step(s, Sync));
  }

  lemma AcceptedByAppend(log: Log, stamped: W.Stamped)
    requires Consistent(log) && W.Admitted(log, stamped.request)
    requires Append(log, stamped.request.stream, stamped.request.expected, stamped.at, stamped.request.events).Ok?
    ensures var r := stamped.request;
            var batch := Append(log, r.stream, r.expected, stamped.at, r.events).value;
            && Accepted(r, batch)
            && batch[0].globalPosition == |log.events|
            && LiesIn(batch, log.events + batch)
  {
    hide BuildBatch, IndexOf, WellPositioned;
    var r := stamped.request;
    var batch := Append(log, r.stream, r.expected, stamped.at, r.events).value;
    BuildBatchExact(r.events, r.stream, |Entry(log.streams, r.stream)|, |log.events|, stamped.at);
    assert (log.events + batch)[|log.events|..|log.events| + |batch|] == batch;
  }

  lemma ServesMore(log: Log, log': Log, base: nat, ring: B.Ring)
    requires U.Serves(log, base, ring) && Consistent(log') && log.events <= log'.events
    ensures U.Serves(log', base, ring)
  {
    hide WellPositioned, IndexOf, B.Carries;
    assert log'.events[base..base + ring.tail] == log.events[base..base + ring.tail];
  }

  lemma IndexOk(s: Sys)
    requires SysOk(s) && Enabled(s, IndexBatch)
    ensures SysOk(Step(s, IndexBatch))
  {
    hide R.FileBytes, R.Whole, R.Flatten, R.WritableBatch, In, Append, U.Serves, U.SubOk, LiesIn, Accepted, AccessAll,
         IndexOf, WellPositioned, AgreesWith, W.Admitted, RecordAccesses, AnswersOk, SubmitStep, RestartStep;
    var r, batch := s.phase.stamped.request, s.phase.batch;
    var s' := Step(s, IndexBatch);
    ServesConsistent(s.log, s.base, s.ring);
    AdmittedFits(s.log, r);
    AppendKeepsConsistent(s.log, r.stream, r.expected, s.phase.stamped.at, r.events);
    AcceptedByAppend(s.log, s.phase.stamped);
    ServesMore(s.log, s'.log, s.base, s.ring);
    forall i | 0 <= i < |s.subs|
      ensures U.SubOk(s.subs[i], s'.log, s.base, s.ring)
    {
      U.GrowOk(s.subs[i], s.log, s'.log, s.base, s.ring);
    }
    RecordedAreSlices(s.log.events, batch);
    AccessesKeepAgreement(s.dedup, RecordAccesses(batch), s.log.events, batch);
    AnswersCarry(s, s');
  }

  lemma ServesConsistent(log: Log, base: nat, ring: B.Ring)
    requires U.Serves(log, base, ring)
    ensures Consistent(log) && base + ring.tail <= |log.events|
  {}

  lemma AdmittedFits(log: Log, r: W.Request)
    requires W.Admitted(log, r)
    ensures 0 < |r.events| < 0x1_0000_0000 && Fits(log, r.stream, r.events)
  {}

  lemma PublishNextOk(s: Sys)
    requires SysOk(s) && Enabled(s, PublishNext)
    ensures SysOk(Step(s, PublishNext))
  {
    hide R.FileBytes, R.Whole, R.Flatten, R.WritableBatch, In, U.Serves, U.SubOk, Accepted, IndexOf, WellPositioned,
         AgreesWith, B.Carries, AnswersOk, SubmitStep, RestartStep;
    var s' := Step(s, PublishNext);
    ServesConsistent(s.log, s.base, s.ring);
    assert s.phase.batch[s.phase.sent] == s.log.events[s.base + s.ring.tail];
    ServesSent(s.log, s.base, s.ring);
    forall i | 0 <= i < |s.subs|
      ensures U.SubOk(s.subs[i], s.log, s.base, s'.ring)
    {
      U.PublishOk(s.subs[i], s.log, s.base, s.ring);
    }
    AnswersCarry(s, s');
  }

  lemma ServesSent(log: Log, base: nat, ring: B.Ring)
    requires U.Serves(log, base, ring) && base + ring.tail < |log.events|
    ensures U.Serves(log, base, B.Send(ring, log.events[base + ring.tail]))
  {
    hide WellPositioned, IndexOf, B.Carries;
    var sent := log.events[base..base + ring.tail];
    B.SendCarries(ring, sent, log.events[base + ring.tail]);
    assert log.events[base..base + ring.tail + 1] == sent + [log.events[base + ring.tail]];
  }

  lemma RespondOk(s: Sys)
    requires SysOk(s) && Enabled(s, Respond)
    ensures SysOk(Step(s, Respond))
  {
    hide R.FileBytes, R.Whole, R.Flatten, R.WritableBatch, U.Serves, U.SubOk, Accepted, IndexOf, AgreesWith, Durable,
         Project, SubmitStep, RestartStep;
    var s' := Step(s, Respond);
    AllDurable(s);
    ServesConsistent(s.log, s.base, s.ring);
    assert Durable(s') == Durable(s) by { SameDurable(s, s'); }
    assert forall e <- s.phase.batch :: In(e, s.log.events);
  }

  lemma SameDurable(s: Sys, s': Sys)
    requires s.synced >= 8 && s'.synced == s.synced && s'.written == s.written
    ensures Durable(s') == Durable(s)
  {
    hide R.Flatten, R.Whole;
  }

  // ------------------------------------------------------------------------ readers and subscribers

  lemma QueryOk(s: Sys, l: Label)
    requires SysOk(s) && Enabled(s, l) && (l.QueryAll? || l.QueryStream?)
    ensures SysOk(Step(s, l))
  {
    hide FileOk, PhaseOk, AnswersOk, U.SubOk, AgreesWith, IndexOf, B.Carries, ReadStream, ReadAll, In, EventSet,
         SubmitStep, RestartStep;
    match l
    case QueryAll(from, max) =>
      ShowOk(s, EventSet(ReadAll(s.log, from, max)));
    case QueryStream(stream, from, max) =>
      if ReadStream(s.log, stream, from, max).Ok? {
        ShowOk(s, EventSet(ReadStream(s.log, stream, from, max).value));
      }
  }

  /** Replacing subscriptions by others that are in order touches nothing else. */
  lemma SubsOk(s: Sys, subs: seq<U.Sub>)
    requires SysOk(s) && !s.phase.Down?
    requires U.Serves(s.log, s.base, s.ring) && forall i | 0 <= i < |subs| :: U.SubOk(subs[i], s.log, s.base, s.ring)
    ensures SysOk(s.(subs := subs))
  {
    hide R.FileBytes, R.Whole, R.Flatten, R.WritableBatch, In, Append, U.Serves, U.SubOk, LiesIn, Accepted,
         WellPositioned, AgreesWith, W.Admitted, AnswersOk, SubmitStep, RestartStep;
    AnswersCarry(s, s.(subs := subs));
  }

  lemma SubscribeOk(s: Sys, target: U.Target, from: u64)
    requires SysOk(s) && Enabled(s, Subscribe(target, from))
    ensures SysOk(Step(s, Subscribe(target, from)))
  {
    hide FileOk, PhaseOk, AnswersOk, U.Serves, U.SubOk, AgreesWith, U.Register, SubmitStep, RestartStep;
    U.RegisterOk(target, from, s.log, s.base, s.ring);
    SubsOk(s, s.subs + [U.Register(target, from, s.ring)]);
  }

  lemma SubPollOk(s: Sys, i: nat)
    requires SysOk(s) && Enabled(s, Poll(i))
    ensures SysOk(Step(s, Poll(i)))
  {
    hide FileOk, PhaseOk, AnswersOk, U.Serves, U.SubOk, AgreesWith, U.Poll, U.Readable, U.Delivered, EventSet, In;
    var sub := U.Poll(s.subs[i], s.log, s.ring);
    U.PollOk(s.subs[i], s.log, s.base, s.ring);
    var s' := s.(subs := s.subs[i := sub]);
    SubsOk(s, s'.subs);
    ShowOk(s', EventSet(U.Delivered(sub.out)));
  }

  lemma CloseOk(s: Sys)
    requires SysOk(s) && Enabled(s, Close)
    ensures SysOk(Step(s, Close))
  {
    hide R.FileBytes, R.Whole, R.Flatten, R.WritableBatch, In, LiesIn, Accepted, WellPositioned, AgreesWith, IndexOf,
         U.Follows, U.Reach, U.View, AnswersOk, SubmitStep, RestartStep;
    AnswersCarry(s, Step(s, Close));
  }

  // ------------------------------------------------------------------------------ crashes and restarts

  lemma AnsweredWithin(s: Sys)
    requires SysOk(s)
    ensures Answered(s) <= |R.Flatten(s.written)|
  {
    hide R.FileBytes, R.Whole, R.Flatten, R.WritableBatch, In, Append, U.Serves, U.SubOk, Accepted, WellPositioned,
         AgreesWith, W.Admitted, AnswersOk;
  }

  lemma KillOk(s: Sys)
    requires SysOk(s) && Enabled(s, Kill)
    ensures SysOk(Step(s, Kill))
  {
    hide R.FileBytes, R.Whole, R.Flatten, R.WritableBatch, In, Append, U.Serves, U.SubOk, LiesIn, Accepted,
         WellPositioned, AgreesWith, W.Admitted, AnswersOk, SubmitStep, RestartStep;
    AnsweredWithin(s);
    AnswersCarry(s, Step(s, Kill));
  }

  lemma PowerLossOk(s: Sys, cut: nat)
    requires SysOk(s) && Enabled(s, PowerLoss(cut))
    ensures SysOk(Step(s, PowerLoss(cut)))
  {
    hide R.FileBytes, R.Whole, R.Flatten, R.WritableBatch, In, Append, U.Serves, U.SubOk, LiesIn, Accepted,
         WellPositioned, AgreesWith, W.Admitted, Durable, AnswersOk, SubmitStep, RestartStep;
    var s' := Step(s, PowerLoss(cut));
    AnsweredWithin(s);
    DurableGrows(s, PowerLoss(cut));
    AnswersCarry(s, s');
    assert s'.file == R.FileBytes(s.written)[..cut];
  }

  lemma RestartOk(s: Sys)
    requires SysOk(s) && Enabled(s, Restart)
    ensures SysOk(Step(s, Restart)) && Step(s, Restart).phase.Idle?
  {
    hide R.FileBytes, R.Whole, R.Flatten, R.WritableBatch, R.OpenFile, In, LiesIn, Accepted, WellPositioned,
         AgreesWith, Durable, AccessAll, IndexOf, SeedAccesses, AnswersOk, SubmitStep, U.Serves, U.SubOk;
    RestartRecovers(s);
    var j := R.Whole(s.written, |s.file| - 8);
    var events := R.Flatten(s.written[..j]);
    var s' := Step(s, Restart);
    assert s'.written == s.written[..j];
    RecoveredLog(s, j);
    DurableGrows(s, Restart);
    DurableWithin(s, j);
    AnswersCarry(s, s');
    assert s'.file == R.FileBytes(s'.written)[..|s'.file|];
  }

  /**
   * A restart keeps exactly the batches the file holds in full and drops the rest of the bytes. The writer
   * starts from them as it does from any opened log: index rebuilt, cache reseeded, an empty channel.
   */
  lemma RestartRebuilds(s: Sys)
    requires SysOk(s) && Enabled(s, Restart)
    ensures var t := Step(s, Restart);
            var events := R.Flatten(t.written);
            && t.written == s.written[..R.Whole(s.written, |s.file| - 8)]
            && WriterState(t) == W.Spawn(R.FileBytes(t.written), Log(events, IndexOf(events)), s.cacheCapacity)
            && t.base == |events| && t.ring == B.NewRing(s.ringCapacity) && t.subs == []
            && t.answers == s.answers && t.seen == s.seen
  {
    hide R.FileBytes, R.Whole, R.Flatten, R.WritableBatch, R.OpenFile, WellPositioned, AccessAll, IndexOf,
         SeedAccesses, ServerOk, PhaseOk, AnswersOk;
    RestartRecovers(s);
  }

  /** The recovered log is consistent, a new ring serves it, and the reseeded cache agrees with it. */
  lemma RecoveredLog(s: Sys, j: nat)
    requires FileOk(s) && j <= |s.written|
    ensures var events := R.Flatten(s.written[..j]);
            && WellPositioned(events) && |events| <= VEC_LIMIT
            && U.Serves(Log(events, IndexOf(events)), |events|, B.NewRing(s.ringCapacity))
            && AgreesWith(AccessAll(Empty(s.cacheCapacity), SeedAccesses(events)), events)
  {
    hide R.FileBytes, R.Flatten, R.WritableBatch, AccessAll, IndexOf, WellPositioned, SeedAccesses;
    var all, events := R.Flatten(s.written), R.Flatten(s.written[..j]);
    FlattenPrefix(s.written, j, |s.written|);
    assert s.written[..|s.written|] == s.written;
    WellPositionedPrefix(all, |events|);
    assert all[..|events|] == events;
    SeedAgrees(events, s.cacheCapacity);
    assert events[|events|..|events|] == [];
  }

  lemma SeedAgrees(events: seq<RecordedEvent>, capacity: nat)
    requires WellPositioned(events)
    ensures AgreesWith(AccessAll(Empty(capacity), SeedAccesses(events)), events)
  {
    hide AccessAll, Project;
    SeededAreSlices(events);
    assert events + [] == events;
    AccessesKeepAgreement(Empty(capacity), SeedAccesses(events), events, []);
  }

  lemma DurableWithin(s: Sys, j: nat)
    requires FileOk(s) && j == R.Whole(s.written, |s.file| - 8)
    ensures |Durable(s)| <= |R.Flatten(s.written[..j])|
  {
    hide R.FileBytes, R.Whole, R.Flatten, R.WritableBatch, WellPositioned;
    R.WholeMonotone(s.written, s.synced - 8, |s.file| - 8);
    FlattenPrefix(s.written, R.Whole(s.written, s.synced - 8), j);
  }

  // -------------------------------------------------------------------------------------- all runs

  lemma NoBatches()
    ensures R.Flatten([]) == [] && R.BatchesBytes([]) == []
  {}

  lemma InitOk(cacheCapacity: nat, ringCapacity: nat)
    requires cacheCapacity > 0 && ringCapacity > 0
    ensures SysOk(Init(cacheCapacity, ringCapacity))
  {
    hide R.Whole, R.FileBytes, R.BatchesBytes, R.Flatten, Durable;
    FileSize([]);
    NoBatches();
    var file := R.FileBytes([]);
    assert file[..|file|] == file;
    var s := Init(cacheCapacity, ringCapacity);
    assert s.log.events[0..0] == [];
  }

  /** Every step keeps the invariant. */
  lemma StepOk(s: Sys, l: Label)
    requires SysOk(s) && Enabled(s, l)
    ensures SysOk(Step(s, l))
  {
    hide SysOk, Step;
    match l
    case Submit(stamped) =>
      if W.Writes(WriterState(s), stamped) {
        WriteOk(s, stamped);
      } else {
        AnsweredAtOnceOk(s, stamped);
      }
    case Sync => SyncOk(s);
    case IndexBatch => IndexOk(s);
    case PublishNext => PublishNextOk(s);
    case Respond => RespondOk(s);
    case QueryAll(_, _) => QueryOk(s, l);
    case QueryStream(_, _, _) => QueryOk(s, l);
    case Subscribe(target, from) => SubscribeOk(s, target, from);
    case Poll(i) => SubPollOk(s, i);
    case Close => CloseOk(s);
    case Kill => KillOk(s);
    case PowerLoss(cut) => PowerLossOk(s, cut);
    case Restart => RestartOk(s);
  }

  /** The invariant holds in every state of every run. */
  lemma {:induction false} RunOk(s: Sys, labels: seq<Label>)
    requires SysOk(s) && Runs(s, labels)
    ensures SysOk(After(s, labels))
  {
    hide SysOk, Step, Enabled;
    if labels != [] {
      RunOk(s, labels[..|labels| - 1]);
      StepOk(After(s, labels[..|labels| - 1]), labels[|labels| - 1]);
    }
  }

  /** A new server is in order, and so is every state it can get into. */
  lemma ReachableOk(cacheCapacity: nat, ringCapacity: nat, labels: seq<Label>)
    requires cacheCapacity > 0 && ringCapacity > 0 && Runs(Init(cacheCapacity, ringCapacity), labels)
    ensures SysOk(After(Init(cacheCapacity, ringCapacity), labels))
  {
    hide SysOk, Step, Enabled, Init;
    InitOk(cacheCapacity, ringCapacity);
    RunOk(Init(cacheCapacity, ringCapacity), labels);
  }

  lemma OneMore(s: Sys, labels: seq<Label>, l: Label)
    requires Runs(s, labels) && Enabled(After(s, labels), l)
    ensures Runs(s, labels + [l]) && After(s, labels + [l]) == Step(After(s, labels), l)
  {
    hide Step, Enabled;
    assert (labels + [l])[..|labels|] == labels;
  }

  lemma ThreeSteps(s: Sys, a: Label, b: Label, c: Label)
    requires Enabled(s, a) && Enabled(Step(s, a), b) && Enabled(Step(Step(s, a), b), c)
    ensures Runs(s, [a, b, c]) && After(s, [a, b, c]) == Step(Step(Step(s, a), b), c)
  {
    hide Step, Enabled;
    OneMore(s, [], a);
    OneMore(s, [a], b);
    OneMore(s, [a, b], c);
    assert [] + [a] == [a] && [a] + [b] == [a, b] && [a, b] + [c] == [a, b, c];
  }

  lemma {:induction false} RunsConcat(s: Sys, a: seq<Label>, b: seq<Label>)
    requires Runs(s, a) && Runs(After(s, a), b)
    ensures Runs(s, a + b) && After(s, a + b) == After(After(s, a), b)
    decreases |b|
  {
    hide Step, Enabled;
    if b == [] {
      assert a + b == a;
    } else {
      var n := |b| - 1;
      assert (a + b)[..|a + b| - 1] == a + b[..n];
      RunsConcat(s, a, b[..n]);
    }
  }
}
