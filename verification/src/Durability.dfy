/** Which events survive a crash: what is durable stays so, and when clients can see what is not. */
module Durability {
  import opened Bytes
  import opened Types
  import opened Index
  import opened Appending
  import opened Dedup
  import opened System
  import opened Preservation

  /** The events of the batches the file holds in full: what `open` would recover from it now. */
  function Held(s: Sys): seq<RecordedEvent>
    requires |s.file| >= 8
  {
    R.Flatten(s.written[..R.Whole(s.written, |s.file| - 8)])
  }

  /** Everything in memory is durable, so clients cannot be shown anything that is not. */
  ghost predicate Covered(s: Sys)
    requires s.synced >= 8
  {
    s.log.events <= Durable(s)
  }

  /** Everything clients have ever been shown is durable. */
  ghost predicate Kept(s: Sys)
    requires s.synced >= 8
  {
    forall e <- s.seen :: In(e, Durable(s))
  }

  /** Everything clients have ever been shown is still in the file. */
  ghost predicate Intact(s: Sys)
    requires |s.file| >= 8
  {
    forall e <- s.seen :: In(e, Held(s))
  }

  /** The guard on which the sync in `open` depends: the file is cut. Otherwise it had better be synced already. */
  predicate OpensSynced(s: Sys) {
    s.synced == |s.file| || (R.OpenFile(s.file).Ok? && R.OpenFile(s.file).value.1 < |s.file|)
  }

  /** Every restart of the run meets that guard. */
  predicate Careful(s: Sys, labels: seq<Label>)
    requires Runs(s, labels)
    decreases |labels|
  {
    labels == []
    || (&& Careful(s, labels[..|labels| - 1])
        && (labels[|labels| - 1].Restart? ==> OpensSynced(After(s, labels[..|labels| - 1]))))
  }

  /** The last restart of the run met that guard, or there was none, or a batch was synced since. */
  predicate Sheltered(s: Sys, labels: seq<Label>)
    requires Runs(s, labels)
    decreases |labels|
  {
    if labels == [] then true else
    var before, last := labels[..|labels| - 1], labels[|labels| - 1];
    if last.Restart? then OpensSynced(After(s, before)) else last.Sync? || Sheltered(s, before)
  }

  /** Power was lost only while that was so. */
  predicate Shielded(s: Sys, labels: seq<Label>)
    requires Runs(s, labels)
    decreases |labels|
  {
    labels == []
    || (&& Shielded(s, labels[..|labels| - 1])
        && (labels[|labels| - 1].PowerLoss? ==> Sheltered(s, labels[..|labels| - 1])))
  }

  /** The events a step shows to clients: what it would leave in `seen` had nothing been shown before. */
  function Shown(s: Sys, l: Label): set<RecordedEvent>
    requires Enabled(s, l)
  {
    Step(s.(seen := {}), l).seen
  }

  // ------------------------------------------------------------------------------ durable for good

  lemma {:induction false} DurableForever(s: Sys, labels: seq<Label>)
    requires SysOk(s) && Runs(s, labels)
    ensures SysOk(After(s, labels)) && Durable(s) <= Durable(After(s, labels))
  {
    hide Durable, Step, Enabled, FileOk, ServerOk, PhaseOk, AnswersOk;
    if labels != [] {
      var before := labels[..|labels| - 1];
      DurableForever(s, before);
      StepOk(After(s, before), labels[|labels| - 1]);
      DurableGrows(After(s, before), labels[|labels| - 1]);
    }
  }

  lemma EventOfSlice(batch: seq<RecordedEvent>, events: seq<RecordedEvent>, e: RecordedEvent)
    requires LiesIn(batch, events) && e in batch
    requires forall i | 0 <= i < |events| :: events[i].globalPosition == i
    ensures In(e, events)
  {}

  lemma DurablePositions(s: Sys)
    requires FileOk(s)
    ensures WellPositioned(Durable(s))
    ensures forall i | 0 <= i < |Durable(s)| :: Durable(s)[i].globalPosition == i
  {
    hide R.FileBytes, R.Flatten, R.WritableBatch, R.Whole, Project;
    var k := R.Whole(s.written, s.synced - 8);
    FlattenPrefix(s.written, k, |s.written|);
    assert s.written[..|s.written|] == s.written;
    WellPositionedPrefix(R.Flatten(s.written), |Durable(s)|);
    assert R.Flatten(s.written)[..|Durable(s)|] == Durable(s);
  }

  /** What `open` makes of the file when power is lost at `cut`. */
  function RecoveredEvents(s: Sys, cut: nat): seq<RecordedEvent>
    requires cut <= |s.file|
  {
    match R.OpenFile(s.file[..cut])
    case Ok((batches, _)) => R.Flatten(batches)
    case Err(_) => []
  }

  lemma RecoveredExact(s: Sys, cut: nat)
    requires FileOk(s) && 8 <= cut <= |s.file|
    ensures R.OpenFile(s.file[..cut]).Ok?
    ensures RecoveredEvents(s, cut) == R.Flatten(s.written[..R.Whole(s.written, cut - 8)])
  {
    hide R.FileBytes, R.Flatten, R.WritableBatch, R.OpenFile, R.Whole, WellPositioned;
    assert s.file[..cut] == R.FileBytes(s.written)[..|s.file|][..cut] == R.FileBytes(s.written)[..cut];
    R.OpenCut(s.written, cut);
  }

  /** An event survives every power loss that can happen now exactly when it is durable now. */
  lemma SurvivesExactly(s: Sys, e: RecordedEvent)
    requires SysOk(s)
    ensures (forall cut | s.synced <= cut <= |s.file| :: In(e, RecoveredEvents(s, cut))) <==> In(e, Durable(s))
  {
    hide R.FileBytes, R.Flatten, R.WritableBatch, R.OpenFile, R.Whole, WellPositioned, ServerOk, PhaseOk, AnswersOk,
         In, RecoveredEvents;
    RecoveredExact(s, s.synced);
    if In(e, Durable(s)) {
      forall cut | s.synced <= cut <= |s.file|
        ensures In(e, RecoveredEvents(s, cut))
      {
        RecoveredExact(s, cut);
        R.WholeMonotone(s.written, s.synced - 8, cut - 8);
        FlattenPrefix(s.written, R.Whole(s.written, s.synced - 8), R.Whole(s.written, cut - 8));
        InPrefix(e, Durable(s), RecoveredEvents(s, cut));
      }
    }
  }

  // ------------------------------------------------------------------------- what clients are shown

  lemma ReadAllShown(log: Log, from: u64, max: u64)
    requires WellPositioned(log.events)
    ensures forall e <- EventSet(ReadAll(log, from, max)) :: In(e, log.events)
  {}

  lemma ViewShown(events: seq<RecordedEvent>, target: U.Target, k: nat)
    requires WellPositioned(events) && k < |U.View(events, target)|
    ensures In(U.View(events, target)[k], events)
  {
    if target.OneStream? {
      ProjectVersions(events, target.id, k);
    }
  }

  lemma ReadStreamShown(log: Log, stream: Uuid, from: u64, max: u64)
    requires Consistent(log) && InRange(Entry(log.streams, stream), |log.events|)
    requires ReadStream(log, stream, from, max).Ok?
    ensures forall e <- EventSet(ReadStream(log, stream, from, max).value) :: In(e, log.events)
  {
    hide IndexOf, WellPositioned, ReadStream, Project;
    ReadStreamIsWindow(log, stream, from, max);
    var projection := Project(log.events, stream);
    forall e <- ReadStream(log, stream, from, max).value
      ensures In(e, log.events)
    {
      var k :| 0 <= k < |projection| && projection[k] == e;
      ProjectVersions(log.events, stream, k);
    }
  }

  lemma DeliveredShown(sub: U.Sub, log: Log, base: nat, ring: B.Ring)
    requires U.Serves(log, base, ring) && U.SubOk(sub, log, base, ring)
    ensures forall e <- EventSet(U.Delivered(sub.out)) :: In(e, log.events)
  {
    hide IndexOf, WellPositioned, U.View, U.Delivered, U.Follows, B.Carries;
    U.DeliveryExact(sub, log, base, ring);
    var d := U.Delivered(sub.out);
    var start := U.Start(sub, U.Reach(log.events, base, sub.registered, sub.target));
    forall e <- d
      ensures In(e, log.events)
    {
      var i :| 0 <= i < |d| && d[i] == e;
      ViewShown(log.events, sub.target, start + i);
    }
  }

  /** What the cache answers with are events of the log. */
  lemma CachedShown(w: W.State, stamped: W.Stamped)
    requires W.Admitted(w.log, stamped.request) && !W.Writes(w, stamped)
    requires AgreesWith(w.dedup, w.log.events) && WellPositioned(w.log.events)
    ensures var o := W.Process(w, stamped);
            forall e <- (if o.response.Ok? then EventSet(o.response.value) else {}) :: In(e, w.log.events)
  {
    hide Append, AccessAll, R.BatchBytes, Project;
  }

  lemma PublishedShown(s: Sys)
    requires SysOk(s) && s.phase.Publishing?
    ensures forall e <- EventSet(s.phase.batch) :: In(e, s.log.events)
  {
    hide R.FileBytes, R.Flatten, R.WritableBatch, AnswersOk, U.SubOk, AgreesWith, B.Carries, IndexOf, Accepted,
         Project;
  }

  lemma AnsweredShown(s: Sys, stamped: W.Stamped)
    requires SysOk(s) && Enabled(s, Submit(stamped))
    ensures forall e <- Step(s, Submit(stamped)).seen :: e in s.seen || In(e, s.log.events)
  {
    hide FileOk, PhaseOk, AnswersOk, U.SubOk, B.Carries, AgreesWith, IndexOf, WellPositioned, In, W.Process, W.Writes,
         W.Admitted, Append, AccessAll, R.BatchBytes;
    if !W.Writes(WriterState(s), stamped) {
      CachedShown(WriterState(s), stamped);
    }
  }

  /** In every step, clients are shown only events of the log in memory. */
  lemma SeenStep(s: Sys, l: Label)
    requires SysOk(s) && Enabled(s, l)
    ensures forall e <- Step(s, l).seen :: e in s.seen || (!s.phase.Down? && In(e, s.log.events))
  {
    hide FileOk, PhaseOk, AnswersOk, U.SubOk, U.Serves, AgreesWith, In, EventSet, U.Poll, U.Delivered, U.Readable,
         ReadAll, ReadStream, SubmitStep, RestartStep, Consistent, InRange;
    match l
    case Submit(stamped) => AnsweredShown(s, stamped);
    case Respond => PublishedShown(s);
    case QueryAll(from, max) =>
      ServesConsistent(s.log, s.base, s.ring);
      ConsistentPositions(s.log);
      ReadAllShown(s.log, from, max);
    case QueryStream(stream, from, max) =>
      ServesConsistent(s.log, s.base, s.ring);
      if ReadStream(s.log, stream, from, max).Ok? {
        ReadStreamShown(s.log, stream, from, max);
      }
    case Poll(i) =>
      U.PollOk(s.subs[i], s.log, s.base, s.ring);
      DeliveredShown(U.Poll(s.subs[i], s.log, s.ring), s.log, s.base, s.ring);
    case Restart => RestartShowsNothing(s);
    case _ =>
  }

  lemma ConsistentPositions(log: Log)
    requires Consistent(log)
    ensures WellPositioned(log.events)
  {}

  lemma RestartShowsNothing(s: Sys)
    ensures RestartStep(s).seen == s.seen
  {
    hide R.OpenFile, R.Flatten, IndexOf, AccessAll, SeedAccesses;
  }

  // --------------------------------------------------------------------------- covered, step by step

  lemma LogWritten(s: Sys)
    requires SysOk(s) && !s.phase.Down?
    ensures s.log.events <= R.Flatten(s.written) && Held(s) == R.Flatten(s.written)
  {
    hide R.FileBytes, R.BatchesBytes, R.Whole, R.Flatten, R.WritableBatch, WellPositioned, AnswersOk, Append,
         W.Admitted, U.Serves, U.SubOk, AgreesWith, LiesIn, Accepted;
    FileSize(s.written);
    assert s.written[..|s.written|] == s.written;
    R.WholeExact(s.written, |s.file| - 8, |s.written|);
  }

  /** A batch that is written but not synced is not durable, and makes nothing else so. */
  lemma UnsyncedBatch(written: seq<seq<RecordedEvent>>, batch: seq<RecordedEvent>, n: nat)
    requires n <= |R.BatchesBytes(written)|
    ensures var k := R.Whole(written, n);
            R.Whole(written + [batch], n) == k && (written + [batch])[..k] == written[..k]
  {
    hide R.BatchesBytes, R.Whole, R.BatchBytes, R.RecordsBytes;
    var k, all := R.Whole(written, n), written + [batch];
    R.BatchSize(batch);
    R.BatchesBytesAppend(written, batch);
    assert all[..|all|] == all && all[..k] == written[..k];
    R.WholeExact(all, n, |all|);
    R.WholeExact(all, n, k);
    R.WholeExact(written, n, k);
    var k' := R.Whole(all, n);
    assert all[..k'] == written[..k'];
    R.WholeExact(all, n, k');
    R.WholeExact(written, n, k');
  }

  lemma FlattenGrows(batches: seq<seq<RecordedEvent>>, k: nat)
    requires k < |batches| && forall b <- batches :: b != []
    ensures |R.Flatten(batches[..k])| < |R.Flatten(batches)|
  {
    hide R.Flatten;
    R.FlattenAppend(batches[..k], batches[k..]);
    assert batches == batches[..k] + batches[k..];
    assert batches[k] in batches;
    FlattenSome(batches[k..]);
  }

  lemma FlattenSome(batches: seq<seq<RecordedEvent>>)
    requires batches != [] && batches[0] != []
    ensures R.Flatten(batches) != []
  {}

  /** The end of the file is durable exactly when it is synced. */
  lemma DurableWhole(s: Sys)
    requires FileOk(s) && |s.file| == |R.FileBytes(s.written)|
    ensures Durable(s) <= R.Flatten(s.written)
    ensures R.Flatten(s.written) <= Durable(s) <==> s.synced == |s.file|
  {
    hide R.FileBytes, R.BatchesBytes, R.Whole, R.Flatten, WellPositioned, R.RecordsBytes;
    var k := R.Whole(s.written, s.synced - 8);
    FlattenPrefix(s.written, k, |s.written|);
    assert s.written[..|s.written|] == s.written;
    FileSize(s.written);
    R.WholeExact(s.written, s.synced - 8, |s.written|);
    if s.synced < |s.file| {
      FlattenGrows(s.written, k);
    }
  }

  /**
   * The code at the end of `open`: after a restart everything in memory is durable if and only if the file was
   * cut, which syncs it, or was fully synced before.
   */
  lemma RestartCoveredExactly(s: Sys)
    requires SysOk(s) && Enabled(s, Restart)
    ensures SysOk(Step(s, Restart))
    ensures var t := Step(s, Restart);
            && (t.log.events <= Durable(t) <==> |t.file| < |s.file| || s.synced == |s.file|)
            && (OpensSynced(s) <==> |t.file| < |s.file| || s.synced == |s.file|)
  {
    hide R.FileBytes, R.Whole, R.Flatten, R.WritableBatch, R.OpenFile, WellPositioned, ServerOk, AnswersOk, Durable,
         AccessAll, IndexOf, SeedAccesses;
    var t := Step(s, Restart);
    RestartOk(s);
    RestartRecovers(s);
    DurableWhole(t);
  }

  lemma CoveredSubmit(s: Sys, stamped: W.Stamped)
    requires SysOk(s) && Enabled(s, Submit(stamped))
    ensures Step(s, Submit(stamped)).synced == s.synced
    ensures Covered(Step(s, Submit(stamped))) <==> Covered(s)
  {
    hide R.FileBytes, R.BatchesBytes, R.Whole, R.Flatten, R.WritableBatch, R.BatchBytes, WellPositioned, AnswersOk,
         W.Admitted, W.Writes, W.Process, Append, U.Serves, U.SubOk, AgreesWith, AccessAll;
    var t := Step(s, Submit(stamped));
    if W.Writes(WriterState(s), stamped) {
      FileSize(s.written);
      UnsyncedBatch(s.written, t.phase.batch, s.synced - 8);
    }
  }

  lemma CoveredSync(s: Sys, l: Label)
    requires SysOk(s) && Enabled(s, l) && (l.Sync? || l.IndexBatch?)
    ensures Step(s, l).synced >= 8 && Covered(Step(s, l)) && (l.IndexBatch? ==> Covered(s))
  {
    hide R.FileBytes, R.BatchesBytes, R.Whole, R.Flatten, R.WritableBatch, WellPositioned, AnswersOk, W.Admitted,
         Append, U.Serves, U.SubOk, AgreesWith, AccessAll, IndexOf, SubmitStep, RestartStep, PushBatch;
    AllDurable(Step(s, l));
    if l.IndexBatch? {
      AllDurable(s);
    }
  }

  /**
   * How the log in memory comes to hold events that are not durable, and stops to: only a restart with an
   * uncut, unsynced file lets them in, and the next sync makes them durable.
   */
  lemma CoveredStep(s: Sys, l: Label)
    requires SysOk(s) && Enabled(s, l)
    ensures Step(s, l).synced >= 8
    ensures !l.PowerLoss? ==>
              (Covered(Step(s, l)) <==> if l.Restart? then OpensSynced(s) else if l.Sync? then true else Covered(s))
    ensures l.PowerLoss? && Covered(s) ==> Covered(Step(s, l))
  {
    hide FileOk, ServerOk, PhaseOk, AnswersOk, Durable, U.Poll, U.Readable, U.Delivered, ReadAll, ReadStream, InRange,
         EventSet, SubmitStep, RestartStep, OpensSynced, W.Admitted;
    DurableGrows(s, l);
    match l
    case Submit(stamped) => CoveredSubmit(s, stamped);
    case Sync => CoveredSync(s, l);
    case IndexBatch => CoveredSync(s, l);
    case Restart => RestartCoveredExactly(s);
    case PowerLoss(_) =>
    case _ => SameDurable(s, Step(s, l));
  }

  // --------------------------------------------------------------------------- kept, over whole runs

  /** While everything in memory is durable, so is everything clients are shown. */
  lemma KeptStep(s: Sys, l: Label)
    requires SysOk(s) && Enabled(s, l) && Kept(s) && (s.phase.Down? || Covered(s))
    ensures Step(s, l).synced >= 8 && Kept(Step(s, l))
  {
    hide FileOk, ServerOk, PhaseOk, AnswersOk, Durable, Step, Enabled, In;
    SyncedHeader(s);
    DurableGrows(s, l);
    SeenStep(s, l);
    forall e <- Step(s, l).seen
      ensures In(e, Durable(Step(s, l)))
    {
      if e !in s.seen {
        InPrefix(e, s.log.events, Durable(s));
      }
      InPrefix(e, Durable(s), Durable(Step(s, l)));
    }
  }

  /** As long as every restart cuts the file or finds it synced, everything clients are shown is durable. */
  lemma {:induction false} CarefulRunKeeps(s: Sys, labels: seq<Label>)
    requires SysOk(s) && Kept(s) && (s.phase.Down? || Covered(s))
    requires Runs(s, labels) && Careful(s, labels)
    ensures var t := After(s, labels);
            SysOk(t) && t.synced >= 8 && Kept(t) && (t.phase.Down? || Covered(t))
  {
    hide SysOk, Kept, Covered, OpensSynced, Step, Enabled;
    SyncedHeader(s);
    if labels != [] {
      var before, l := labels[..|labels| - 1], labels[|labels| - 1];
      var t := After(s, before);
      CarefulRunKeeps(s, before);
      StepOk(t, l);
      KeptStep(t, l);
      CoveredStep(t, l);
      UpSteps(t, l);
    }
  }

  lemma SyncedHeader(s: Sys)
    requires SysOk(s)
    ensures s.synced >= 8 && |s.file| >= 8
  {
    hide ServerOk, PhaseOk, AnswersOk;
  }

  lemma UpSteps(s: Sys, l: Label)
    requires Enabled(s, l)
    ensures !Step(s, l).phase.Down? && s.phase.Down? ==> l.Restart?
    ensures l.PowerLoss? ==> Step(s, l).phase.Down?
  {
    hide SubmitStep, RestartStep, U.Poll, U.Readable, U.Delivered, ReadAll, ReadStream, InRange, EventSet, W.Admitted;
  }

  lemma KeptInit(cacheCapacity: nat, ringCapacity: nat)
    ensures var s := Init(cacheCapacity, ringCapacity); Kept(s) && Covered(s) && |s.file| >= 8 && Intact(s)
  {
    hide Durable, Held, R.FileBytes;
    FileSize([]);
  }

  /**
   * Over every run of a new server: while it is up, everything in memory is durable if and only if the last restart
   * cut the file or found it synced, or a batch was synced since. (A client can then see, and lose, what is not.)
   */
  lemma {:induction false} CoveredExactly(cacheCapacity: nat, ringCapacity: nat, labels: seq<Label>)
    requires cacheCapacity > 0 && ringCapacity > 0 && Runs(Init(cacheCapacity, ringCapacity), labels)
    ensures var s, t := Init(cacheCapacity, ringCapacity), After(Init(cacheCapacity, ringCapacity), labels);
            SysOk(t) && t.synced >= 8 && (!t.phase.Down? ==> (Covered(t) <==> Sheltered(s, labels)))
    decreases |labels|
  {
    hide SysOk, Covered, OpensSynced, Step, Enabled, Init;
    ReachableOk(cacheCapacity, ringCapacity, labels);
    SyncedHeader(After(Init(cacheCapacity, ringCapacity), labels));
    if labels == [] {
      KeptInit(cacheCapacity, ringCapacity);
    } else {
      var before, l := labels[..|labels| - 1], labels[|labels| - 1];
      var t := After(Init(cacheCapacity, ringCapacity), before);
      CoveredExactly(cacheCapacity, ringCapacity, before);
      CoveredStep(t, l);
      UpSteps(t, l);
    }
  }

  /** Only a power loss can take events from the file, and only ones that were not durable. */
  lemma HeldGrows(s: Sys, l: Label)
    requires SysOk(s) && Enabled(s, l) && !l.PowerLoss?
    ensures |Step(s, l).file| >= 8 && Held(s) <= Held(Step(s, l))
  {
    hide R.OpenFile, R.FileBytes, R.BatchesBytes, R.BatchBytes, R.Whole, R.Flatten, R.WritableBatch, WellPositioned,
         ServerOk, PhaseOk, AnswersOk, W.Process, W.Admitted, W.Writes, Append, AccessAll, IndexOf, U.Poll,
         U.Readable, U.Delivered, ReadStream, ReadAll, EventSet, InRange, SeedAccesses;
    var k := R.Whole(s.written, |s.file| - 8);
    R.WholeExact(s.written, |s.file| - 8, k);
    match l
    case Submit(stamped) =>
      if W.Writes(WriterState(s), stamped) {
        var t := Step(s, l);
        assert t.written[..k] == s.written[..k];
        DurablePrefix(s.written, |s.file| - 8, t.written, |t.file| - 8);
      }
    case Restart =>
      RestartRecovers(s);
      var t := Step(s, l);
      FileSize(t.written);
      assert t.written[..k] == t.written;
      DurablePrefix(s.written, |s.file| - 8, t.written, |t.file| - 8);
    case _ =>
  }

  /**
   * What clients were shown stays in the file, but for a power loss at a moment when some of it is not durable.
   */
  lemma IntactStep(s: Sys, l: Label)
    requires SysOk(s) && Enabled(s, l) && Intact(s) && (l.PowerLoss? ==> Kept(s))
    ensures |Step(s, l).file| >= 8 && Intact(Step(s, l))
  {
    hide SysOk, Durable, Held, Step, Enabled, In;
    SyncedHeader(s);
    if l.PowerLoss? {
      KeptThroughPowerLoss(s, l.cut);
    } else {
      HeldGrows(s, l);
      SeenStep(s, l);
      forall e <- Step(s, l).seen
        ensures In(e, Held(Step(s, l)))
      {
        if e !in s.seen {
          LogWritten(s);
          InPrefix(e, s.log.events, Held(s));
        }
        InPrefix(e, Held(s), Held(Step(s, l)));
      }
    }
  }

  lemma KeptThroughPowerLoss(s: Sys, cut: nat)
    requires SysOk(s) && Enabled(s, PowerLoss(cut)) && Kept(s)
    ensures |Step(s, PowerLoss(cut)).file| >= 8 && Intact(Step(s, PowerLoss(cut)))
  {
    hide R.FileBytes, R.Whole, R.Flatten, R.WritableBatch, WellPositioned, ServerOk, PhaseOk, AnswersOk, SubmitStep,
         RestartStep, In;
    DurableGrows(s, PowerLoss(cut));
    forall e <- s.seen
      ensures In(e, Held(Step(s, PowerLoss(cut))))
    {
      InPrefix(e, Durable(s), Durable(Step(s, PowerLoss(cut))));
    }
  }

  /** The next sync ends the exposure: whatever clients were shown is durable then, if it is still in the file. */
  lemma SyncKeeps(s: Sys)
    requires SysOk(s) && Enabled(s, Sync) && Intact(s)
    ensures var t := Step(s, Sync); t.synced >= 8 && Covered(t) && Kept(t)
  {
    hide R.FileBytes, R.Whole, R.Flatten, R.WritableBatch, WellPositioned, ServerOk, PhaseOk, AnswersOk, SubmitStep,
         RestartStep, In;
    CoveredStep(s, Sync);
    StepOk(s, Sync);
  }

  /** So does a restart that cuts the file or finds it synced. */
  lemma RestartKeeps(s: Sys)
    requires SysOk(s) && Enabled(s, Restart) && OpensSynced(s) && Intact(s)
    ensures var t := Step(s, Restart); t.synced >= 8 && Kept(t)
  {
    hide R.FileBytes, R.Flatten, R.WritableBatch, WellPositioned, ServerOk, AnswersOk, OpensSynced, Held, Durable,
         RestartStep, SubmitStep, In;
    var t := Step(s, Restart);
    RestartOk(s);
    HeldGrows(s, Restart);
    RestartCoveredExactly(s);
    LogWritten(t);
    RestartShowsNothing(s);
    forall e <- s.seen
      ensures In(e, Durable(t))
    {
      InPrefix(e, Held(s), Held(t));
      InPrefix(e, t.log.events, Durable(t));
    }
  }

  /**
   * Over every run of a new server in which power was lost only at sheltered moments: whatever clients were ever
   * shown is in the file, and at every sheltered moment it is durable, whichever restarts came before.
   */
  lemma {:induction false} ShieldedRunKeeps(cacheCapacity: nat, ringCapacity: nat, labels: seq<Label>)
    requires cacheCapacity > 0 && ringCapacity > 0 && Runs(Init(cacheCapacity, ringCapacity), labels)
    requires Shielded(Init(cacheCapacity, ringCapacity), labels)
    ensures var s, t := Init(cacheCapacity, ringCapacity), After(Init(cacheCapacity, ringCapacity), labels);
            t.synced >= 8 && |t.file| >= 8 && Intact(t) && (Sheltered(s, labels) ==> Kept(t))
    decreases |labels|
  {
    hide SysOk, Covered, Kept, Intact, OpensSynced, Step, Enabled, Init;
    var s := Init(cacheCapacity, ringCapacity);
    CoveredExactly(cacheCapacity, ringCapacity, labels);
    SyncedHeader(After(s, labels));
    if labels == [] {
      KeptInit(cacheCapacity, ringCapacity);
    } else {
      var before, l := labels[..|labels| - 1], labels[|labels| - 1];
      var t := After(s, before);
      ShieldedRunKeeps(cacheCapacity, ringCapacity, before);
      CoveredExactly(cacheCapacity, ringCapacity, before);
      IntactStep(t, l);
      if Sheltered(s, labels) {
        if l.Restart? {
          RestartKeeps(t);
        } else if l.Sync? {
          SyncKeeps(t);
        } else {
          KeptStep(t, l);
        }
      }
    }
  }

  /** Runs whose restarts are all careful are sheltered throughout. */
  lemma {:induction false} CarefulIsShielded(s: Sys, labels: seq<Label>)
    requires Runs(s, labels) && Careful(s, labels)
    ensures Sheltered(s, labels) && Shielded(s, labels)
    decreases |labels|
  {
    hide OpensSynced, Step, Enabled;
    if labels != [] {
      CarefulIsShielded(s, labels[..|labels| - 1]);
    }
  }

  // ------------------------------------------------------------------------------ moment by moment

  /** What clients have seen before has no influence on a step. */
  lemma ShownStep(s: Sys, l: Label)
    requires Enabled(s, l)
    ensures Step(s, l) == Step(s.(seen := {}), l).(seen := s.seen + Shown(s, l))
  {
    hide W.Process, W.Writes, W.Admitted, Append, AccessAll, R.BatchBytes, R.OpenFile, R.Flatten, IndexOf, U.Poll,
         U.Readable, U.Delivered, ReadStream, ReadAll, EventSet, InRange, SeedAccesses, B.Send;
  }

  /** Everything the step shows is durable when it is shown. */
  ghost predicate ShowsDurable(s: Sys, l: Label)
    requires Enabled(s, l)
  {
    Step(s, l).synced >= 8 && forall e <- Shown(s, l) :: In(e, Durable(Step(s, l)))
  }

  /** Whatever a step shows while everything in memory is durable, is durable. */
  lemma CoveredShows(s: Sys, l: Label)
    requires SysOk(s) && Enabled(s, l) && s.synced >= 8 && (s.phase.Down? || Covered(s))
    ensures ShowsDurable(s, l)
  {
    hide SysOk, Step, Enabled, Durable;
    var blank := s.(seen := {});
    Blank(s, l);
    SameDurable(s, blank);
    KeptStep(blank, l);
    ShownStep(s, l);
    SameDurable(Step(blank, l), Step(s, l));
  }

  lemma Blank(s: Sys, l: Label)
    requires SysOk(s) && Enabled(s, l)
    ensures SysOk(s.(seen := {})) && Enabled(s.(seen := {}), l)
  {
    hide R.FileBytes, R.Whole, R.Flatten, WellPositioned, R.WritableBatch, In, W.Admitted, Append, U.Serves, U.SubOk,
         U.Readable, InRange, AgreesWith, LiesIn, Accepted, AnswersOk;
    AnswersCarry(s, s.(seen := {}));
  }

  /**
   * The exact condition, at every moment of every run of a new server while it is up: nothing a client can be shown
   * now can be lost if and only if the moment is sheltered. What happened or was lost before does not matter.
   */
  lemma ShowsDurableExactly(cacheCapacity: nat, ringCapacity: nat, labels: seq<Label>)
    requires cacheCapacity > 0 && ringCapacity > 0 && Runs(Init(cacheCapacity, ringCapacity), labels)
    requires !After(Init(cacheCapacity, ringCapacity), labels).phase.Down?
    ensures var s, t := Init(cacheCapacity, ringCapacity), After(Init(cacheCapacity, ringCapacity), labels);
            Sheltered(s, labels) <==> forall l | Enabled(t, l) :: ShowsDurable(t, l)
  {
    hide SysOk, Covered, ShowsDurable, Step, Enabled, Runs, After, Sheltered, Init;
    var s := Init(cacheCapacity, ringCapacity);
    var t := After(s, labels);
    CoveredExactly(cacheCapacity, ringCapacity, labels);
    if Covered(t) {
      forall l | Enabled(t, l)
        ensures ShowsDurable(t, l)
      {
        CoveredShows(t, l);
      }
    } else {
      ExposedLast(t);
      ReadStep(t);
      ReadShows(t);
    }
  }

  /** Reading everything does not show durable events only, when the last event is not durable. */
  lemma ReadShows(t: Sys)
    requires !t.phase.Down? && t.synced >= 8 && t.log.events != [] && |t.log.events| <= VEC_LIMIT
    requires t.log.events[|t.log.events| - 1].globalPosition == |t.log.events| - 1 && |Durable(t)| < |t.log.events|
    ensures Enabled(t, QueryAll(0, VEC_LIMIT)) && !ShowsDurable(t, QueryAll(0, VEC_LIMIT))
  {
    hide Step, Enabled, Durable;
    ReadStep(t);
    ReadStep(t.(seen := {}));
    SameDurable(t, Step(t, QueryAll(0, VEC_LIMIT)));
    var e := t.log.events[|t.log.events| - 1];
    assert e in Shown(t, QueryAll(0, VEC_LIMIT)) && !In(e, Durable(t));
  }

  // ----------------------------------------------------------------------------- the guard is exact

  /** Reading the whole log shows its last event. */
  lemma ReadStep(s: Sys)
    requires !s.phase.Down? && s.log.events != [] && |s.log.events| <= VEC_LIMIT
    ensures Enabled(s, QueryAll(0, VEC_LIMIT))
    ensures var t := Step(s, QueryAll(0, VEC_LIMIT));
            && t.file == s.file && t.synced == s.synced && t.written == s.written
            && s.log.events[|s.log.events| - 1] in t.seen
  {
    var n := |s.log.events| - 1;
    assert ReadAll(s.log, 0, VEC_LIMIT)[n] == s.log.events[n];
  }

  lemma LastPosition(events: seq<RecordedEvent>)
    requires WellPositioned(events) && events != []
    ensures events[|events| - 1].globalPosition == |events| - 1
  {
    hide Project;
  }

  /** When memory holds more than is durable, it holds a last event that is not. */
  lemma ExposedLast(t: Sys)
    requires SysOk(t) && !t.phase.Down? && !Covered(t)
    ensures |Durable(t)| < |t.log.events| <= VEC_LIMIT
    ensures t.log.events[|t.log.events| - 1].globalPosition == |t.log.events| - 1
  {
    hide R.FileBytes, R.Whole, R.Flatten, R.WritableBatch, WellPositioned, AnswersOk, Durable, U.SubOk, AgreesWith,
         B.Carries, PhaseOk, Indexed;
    LogWritten(t);
    DurableWhole(t);
    LastPosition(t.log.events);
  }

  /**
   * The guard is exact. Take any state between a crash and the next `open` in which everything shown so far is
   * durable. If the guard holds, everything shown in any continuation is durable, as long as later restarts meet
   * the guard too. If it does not, one read is enough to show a client an event that is not.
   */
  lemma GuardExact(s: Sys)
    requires SysOk(s) && Enabled(s, Restart) && Kept(s)
    ensures SysOk(Step(s, Restart))
    ensures var t := Step(s, Restart);
            OpensSynced(s)
            <==> forall labels | Runs(t, labels) && Careful(t, labels) ::
                   After(t, labels).synced >= 8 && Kept(After(t, labels))
  {
    hide SysOk, Kept, Covered, OpensSynced, Step, Enabled, Runs, After, Careful;
    var t := Step(s, Restart);
    StepOk(s, Restart);
    SyncedHeader(t);
    if OpensSynced(s) {
      KeptStep(s, Restart) by { DownAtRestart(s); }
      CoveredStep(s, Restart);
      forall labels | Runs(t, labels) && Careful(t, labels)
        ensures After(t, labels).synced >= 8 && Kept(After(t, labels))
      {
        CarefulRunKeeps(t, labels);
      }
    } else {
      RestartOk(s);
      RestartCoveredExactly(s);
      assert !Covered(t) by { NotCovered(t); }
      ExposedLast(t);
      OneRead(t);
    }
  }

  lemma NotCovered(t: Sys)
    requires t.synced >= 8 && !(t.log.events <= Durable(t))
    ensures !Covered(t)
  {
    hide Durable;
  }

  lemma DownAtRestart(s: Sys)
    requires Enabled(s, Restart)
    ensures s.phase.Down?
  {}

  /** Reading the whole log shows events that are not durable, if it holds any. */
  lemma OneRead(t: Sys)
    requires t.phase.Idle? && t.synced >= 8 && t.log.events != [] && |t.log.events| <= VEC_LIMIT
    requires t.log.events[|t.log.events| - 1].globalPosition == |t.log.events| - 1 && |Durable(t)| < |t.log.events|
    ensures var labels := [QueryAll(0, VEC_LIMIT)];
            && Runs(t, labels) && Careful(t, labels)
            && var u := After(t, labels); u.synced >= 8 && !Kept(u)
  {
    hide Durable, Step, Enabled;
    ReadStep(t);
    var labels := [QueryAll(0, VEC_LIMIT)];
    OneMore(t, [], labels[0]);
    assert [] + labels == labels && labels[..0] == [];
    SameDurable(t, Step(t, labels[0]));
  }

  // ------------------------------------------------------------------------------- surviving for good

  /** A client has the event as the answer to a request that wrote it. */
  ghost predicate Acknowledged(s: Sys, e: RecordedEvent) {
    exists i | 0 <= i < |s.answers| ::
      s.answers[i].wrote && s.answers[i].response.Ok? && e in s.answers[i].response.value
  }

  /** The answer to the request that wrote is durable, whatever happened before. */
  lemma AcknowledgedIsDurable(s: Sys, e: RecordedEvent)
    requires SysOk(s) && Acknowledged(s, e)
    ensures In(e, Durable(s))
  {
    hide R.FileBytes, R.Flatten, R.WritableBatch, WellPositioned, ServerOk, PhaseOk, Accepted, Durable, Answered,
         LiesIn, In;
    var i :| && 0 <= i < |s.answers| && s.answers[i].wrote
             && s.answers[i].response.Ok? && e in s.answers[i].response.value;
    DurablePositions(s);
    EventOfSlice(s.answers[i].response.value, Durable(s), e);
  }

  /**
   * In every run of a new server, the answer to a request that wrote is durable. So is, at every sheltered moment,
   * everything any client was ever shown, by a read, by a subscription or as the answer to a retry, unless power was
   * lost at a moment that was not.
   */
  lemma WitnessedIsDurable(cacheCapacity: nat, ringCapacity: nat, labels: seq<Label>, e: RecordedEvent)
    requires cacheCapacity > 0 && ringCapacity > 0 && Runs(Init(cacheCapacity, ringCapacity), labels)
    requires var s := After(Init(cacheCapacity, ringCapacity), labels);
             || Acknowledged(s, e)
             || (&& Shielded(Init(cacheCapacity, ringCapacity), labels)
                 && Sheltered(Init(cacheCapacity, ringCapacity), labels) && e in s.seen)
    ensures var s := After(Init(cacheCapacity, ringCapacity), labels);
            SysOk(s) && s.synced >= 8 && In(e, Durable(s))
  {
    hide SysOk, Acknowledged, Runs, After, Shielded, Sheltered, Durable, Init, In;
    var start := Init(cacheCapacity, ringCapacity);
    var s := After(start, labels);
    ReachableOk(cacheCapacity, ringCapacity, labels);
    SyncedHeader(s);
    if Acknowledged(s, e) {
      AcknowledgedIsDurable(s, e);
    } else {
      ShieldedRunKeeps(cacheCapacity, ringCapacity, labels);
    }
  }

  /**
   * Durability over whole runs: such an event is there for good. After any further steps of writer, readers,
   * subscribers, crashes and restarts, sheltered or not, and a power loss at any point the disk allows, `open`
   * succeeds and recovers the event at the same global position and the same stream version.
   */
  lemma WitnessedSurvives(cacheCapacity: nat, ringCapacity: nat, labels: seq<Label>, more: seq<Label>, e: RecordedEvent,
                          cut: nat)
    requires cacheCapacity > 0 && ringCapacity > 0 && Runs(Init(cacheCapacity, ringCapacity), labels)
    requires var s := After(Init(cacheCapacity, ringCapacity), labels);
             && (|| Acknowledged(s, e)
                 || (&& Shielded(Init(cacheCapacity, ringCapacity), labels)
                     && Sheltered(Init(cacheCapacity, ringCapacity), labels) && e in s.seen))
             && Runs(s, more) && After(s, more).synced <= cut <= |After(s, more).file|
    ensures var t := After(After(Init(cacheCapacity, ringCapacity), labels), more);
            && R.OpenFile(t.file[..cut]).Ok?
            && In(e, RecoveredEvents(t, cut))
            && var projection := Project(RecoveredEvents(t, cut), e.streamId);
               e.streamVersion < |projection| && projection[e.streamVersion] == e
  {
    hide Acknowledged, Runs, After, Shielded, Sheltered, Init;
    WitnessedIsDurable(cacheCapacity, ringCapacity, labels, e);
    DurableSurvives(After(Init(cacheCapacity, ringCapacity), labels), more, e, cut);
  }

  /**
   * And whatever was lost before: an event shown by a step at a sheltered moment is there for good, over any further
   * steps and power losses.
   */
  lemma ShownSurvives(cacheCapacity: nat, ringCapacity: nat, labels: seq<Label>, l: Label, more: seq<Label>,
                      e: RecordedEvent, cut: nat)
    requires cacheCapacity > 0 && ringCapacity > 0 && Runs(Init(cacheCapacity, ringCapacity), labels)
    requires Sheltered(Init(cacheCapacity, ringCapacity), labels)
    requires var s := After(Init(cacheCapacity, ringCapacity), labels);
             && Enabled(s, l) && e in Shown(s, l) && Runs(Step(s, l), more)
             && After(Step(s, l), more).synced <= cut <= |After(Step(s, l), more).file|
    ensures var t := After(Step(After(Init(cacheCapacity, ringCapacity), labels), l), more);
            && R.OpenFile(t.file[..cut]).Ok?
            && In(e, RecoveredEvents(t, cut))
            && var projection := Project(RecoveredEvents(t, cut), e.streamId);
               e.streamVersion < |projection| && projection[e.streamVersion] == e
  {
    hide SysOk, Covered, Runs, After, Sheltered, Init, Step, Enabled, Shown, Durable, In;
    var s := After(Init(cacheCapacity, ringCapacity), labels);
    CoveredExactly(cacheCapacity, ringCapacity, labels);
    StepOk(s, l);
    CoveredShows(s, l);
    DurableSurvives(Step(s, l), more, e, cut);
  }

  lemma DurableSurvives(s: Sys, labels: seq<Label>, e: RecordedEvent, cut: nat)
    requires SysOk(s) && In(e, Durable(s)) && Runs(s, labels)
    requires After(s, labels).synced <= cut <= |After(s, labels).file|
    ensures var t := After(s, labels);
            && R.OpenFile(t.file[..cut]).Ok?
            && In(e, RecoveredEvents(t, cut))
            && var projection := Project(RecoveredEvents(t, cut), e.streamId);
               e.streamVersion < |projection| && projection[e.streamVersion] == e
  {
    hide R.FileBytes, R.Flatten, R.WritableBatch, R.OpenFile, R.Whole, WellPositioned, ServerOk, PhaseOk, AnswersOk,
         RecoveredEvents, Durable, Step;
    var t := After(s, labels);
    DurableForever(s, labels);
    InPrefix(e, Durable(s), Durable(t));
    SurvivesExactly(t, e);
    RecoveredExact(t, cut);
    RecoveredLog(t, R.Whole(t.written, cut - 8));
    ProjectAtVersion(RecoveredEvents(t, cut), e.globalPosition);
  }
}
