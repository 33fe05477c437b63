/** What every run of a new server can go on to do: no step is missing, and subscribers who poll get their events. */
module Progress {
  import opened Bytes
  import opened Types
  import opened Index
  import opened Appending
  import opened Dedup
  import opened System
  import opened Preservation
  import opened Durability
  import L = Losses

  // ------------------------------------------------------------------------------ nothing gets stuck

  /** The step the writer takes next in the middle of a request. */
  function NextWriterStep(s: Sys): Label
    requires !s.phase.Down? && !s.phase.Idle?
  {
    match s.phase
    case Written(_, _) => Sync
    case Synced(_, _) => IndexBatch
    case Publishing(_, batch, sent) => if sent < |batch| then PublishNext else Respond
  }

  /**
   * In every state a server can be in: after a crash it can restart; while it is up, reads and subscriptions of any
   * kind are served and every subscriber can poll; between requests an open server takes any request that fits in
   * memory, and within one the writer can take its next step.
   */
  lemma NeverStuck(cacheCapacity: nat, ringCapacity: nat, labels: seq<Label>)
    requires cacheCapacity > 0 && ringCapacity > 0 && Runs(Init(cacheCapacity, ringCapacity), labels)
    ensures var s := After(Init(cacheCapacity, ringCapacity), labels); CanGoOn(s)
  {
    hide Runs, After, Init, SysOk, CanGoOn;
    ReachableOk(cacheCapacity, ringCapacity, labels);
    GoesOn(After(Init(cacheCapacity, ringCapacity), labels));
  }

  ghost predicate CanGoOn(s: Sys) {
    && (s.phase.Down? ==> Enabled(s, Restart))
    && (forall cut | s.synced <= cut <= |s.file| :: Enabled(s, PowerLoss(cut)))
    && (!s.phase.Down? ==> Enabled(s, Kill) && ServesClients(s))
    && (s.phase.Idle? ==> Enabled(s, Close) && (!s.ring.closed ==> TakesRequests(s)))
    && (!s.phase.Down? && !s.phase.Idle? ==> Enabled(s, NextWriterStep(s)))
  }

  ghost predicate ServesClients(s: Sys) {
    && (forall from: u64, max: u64 :: Enabled(s, QueryAll(from, max)))
    && (forall stream: Uuid, from: u64, max: u64 :: Enabled(s, QueryStream(stream, from, max)))
    && (forall target: U.Target, from: u64 :: Enabled(s, Subscribe(target, from)))
    && (forall i | 0 <= i < |s.subs| :: Enabled(s, Poll(i)))
  }

  ghost predicate TakesRequests(s: Sys) {
    forall stamped: W.Stamped | Sized(s, stamped) :: Enabled(s, Submit(stamped))
  }

  /** A request with at least one event, that fits in memory. */
  predicate Sized(s: Sys, stamped: W.Stamped) {
    0 < |stamped.request.events| < 0x1_0000_0000 && |s.log.events| + |stamped.request.events| <= VEC_LIMIT
  }

  lemma GoesOn(s: Sys)
    requires SysOk(s)
    ensures CanGoOn(s)
  {
    hide SysOk, ServesClients, TakesRequests, W.Admitted, U.Readable, InRange;
    if !s.phase.Down? {
      GoesOnServing(s);
    }
    if s.phase.Idle? && !s.ring.closed {
      GoesOnTaking(s);
    }
    SentWithin(s);
  }

  lemma SentWithin(s: Sys)
    requires SysOk(s)
    ensures s.phase.Publishing? ==> s.phase.sent <= |s.phase.batch|
  {
    hide FileOk, ServerOk, AnswersOk, R.Flatten, Accepted, LiesIn, Pending;
  }

  lemma GoesOnServing(s: Sys)
    requires SysOk(s) && !s.phase.Down?
    ensures ServesClients(s)
  {
    hide SysOk, U.Readable, InRange, Consistent, U.Serves, W.Admitted;
    UpConsistent(s);
    forall stream: Uuid
      ensures InRange(Entry(s.log.streams, stream), |s.log.events|)
    {
      ConsistentEntry(s.log, stream);
    }
    forall i | 0 <= i < |s.subs|
      ensures U.Readable(s.log, s.subs[i].target)
    {
      U.ConsistentReadable(s.log, s.subs[i].target);
    }
  }

  lemma ConsistentEntry(log: Log, stream: Uuid)
    requires Consistent(log)
    ensures InRange(Entry(log.streams, stream), |log.events|)
  {
    hide WellPositioned, IndexOf;
    EntryInRange(log, stream);
  }

  lemma GoesOnTaking(s: Sys)
    requires SysOk(s) && s.phase.Idle? && !s.ring.closed
    ensures TakesRequests(s)
  {
    hide SysOk, Enabled;
    forall stamped: W.Stamped | Sized(s, stamped)
      ensures Enabled(s, Submit(stamped))
    {
      L.SubmitEnabled(s, stamped);
    }
  }

  // ---------------------------------------------------------------------- what clients have been shown

  /** Nothing a client was answered or sent is missing from what counts as shown. */
  ghost predicate SeenComplete(s: Sys) {
    && (forall i | 0 <= i < |s.answers| && s.answers[i].response.Ok? :: EventSet(s.answers[i].response.value) <= s.seen)
    && (forall i | 0 <= i < |s.subs| :: EventSet(U.Delivered(s.subs[i].out)) <= s.seen)
  }

  lemma SeenCompleteStep(s: Sys, l: Label)
    requires Enabled(s, l) && SeenComplete(s)
    ensures SeenComplete(Step(s, l))
  {
    hide EventSet, U.Delivered, U.Poll, U.Readable, W.Process, W.Writes, W.Admitted, Append, AccessAll, R.BatchBytes,
         R.OpenFile, R.Flatten, IndexOf, ReadAll, ReadStream, InRange, SeedAccesses, B.Send;
    if l.Subscribe? {
      NothingDelivered();
    }
  }

  lemma NothingDelivered()
    ensures EventSet(U.Delivered([])) == {}
  {}

  /** In every run, every event of an answer and every event sent to a present subscriber counts as shown. */
  lemma {:induction false} RunsShowEverything(cacheCapacity: nat, ringCapacity: nat, labels: seq<Label>)
    requires Runs(Init(cacheCapacity, ringCapacity), labels)
    ensures SeenComplete(After(Init(cacheCapacity, ringCapacity), labels))
    decreases |labels|
  {
    hide SeenComplete, Step, Enabled;
    if labels == [] {
      InitComplete(cacheCapacity, ringCapacity);
    } else {
      var before, l := labels[..|labels| - 1], labels[|labels| - 1];
      RunsShowEverything(cacheCapacity, ringCapacity, before);
      SeenCompleteStep(After(Init(cacheCapacity, ringCapacity), before), l);
    }
  }

  lemma InitComplete(cacheCapacity: nat, ringCapacity: nat)
    ensures SeenComplete(Init(cacheCapacity, ringCapacity))
  {}

  /** A read shows exactly the window of the log, or of the log filtered to the stream, that was asked for. */
  lemma ReadsShowWindows(s: Sys, stream: Uuid, from: u64, max: u64)
    requires SysOk(s) && !s.phase.Down?
    ensures Enabled(s, QueryAll(from, max)) && Enabled(s, QueryStream(stream, from, max))
    ensures Shown(s, QueryAll(from, max)) == EventSet(Window(s.log.events, from, max))
    ensures Shown(s, QueryStream(stream, from, max)) == EventSet(Window(Project(s.log.events, stream), from, max))
  {
    hide FileOk, PhaseOk, AnswersOk, U.SubOk, AgreesWith, B.Carries, WellPositioned, IndexOf, ReadAll, ReadStream,
         Project, SubmitStep, RestartStep;
    ReadAllIsWindow(s.log, from, max);
    ReadStreamIsWindow(s.log, stream, from, max);
  }

  // -------------------------------------------------------------------------------- subscribers are served

  function Polls(i: nat, n: nat): (labels: seq<Label>)
    ensures |labels| == n
  {
    seq(n, k => Poll(i))
  }

  /** Polling one subscriber `n` times while nothing else happens. */
  lemma {:induction false} PollRun(s: Sys, i: nat, n: nat)
    requires !s.phase.Down? && i < |s.subs| && U.Readable(s.log, s.subs[i].target)
    ensures Runs(s, Polls(i, n)) && U.AllReadable(U.Still(s.log, s.ring, n), s.subs[i].target)
    ensures var t := After(s, Polls(i, n));
            && t.subs == s.subs[i := U.PollAll(s.subs[i], U.Still(s.log, s.ring, n))]
            && t == s.(subs := t.subs, seen := t.seen)
    decreases n
  {
    hide U.Poll, U.Readable, U.Delivered, EventSet, Step, Enabled;
    if n > 0 {
      PollRun(s, i, n - 1);
      U.StillOneMore(s.subs[i], s.log, s.ring, n - 1);
      var t := After(s, Polls(i, n - 1));
      PollOnce(t, i);
      assert Polls(i, n) == Polls(i, n - 1) + [Poll(i)];
      OneMore(s, Polls(i, n - 1), Poll(i));
    }
  }

  lemma PollOnce(s: Sys, i: nat)
    requires !s.phase.Down? && i < |s.subs| && U.Readable(s.log, s.subs[i].target)
    ensures Enabled(s, Poll(i))
    ensures var t := Step(s, Poll(i));
            && t.subs == s.subs[i := U.Poll(s.subs[i], s.log, s.ring)]
            && t == s.(subs := t.subs, seen := t.seen)
  {
    hide U.Poll, U.Readable, U.Delivered, EventSet;
  }

  /** Subscribe, and poll once per event from there on, once per 500 of them, and twice more. */
  function CatchUpLabels(s: Sys, target: U.Target, from: u64): seq<Label> {
    var left := U.Left(U.View(s.log.events, target), from);
    [Subscribe(target, from)] + Polls(|s.subs|, left + left / 500 + 2)
  }

  /** The last subscriber is live, and was sent exactly the events from where it asked on, in order, and the seam. */
  ghost predicate CaughtUp(s: Sys, t: Sys, target: U.Target, from: u64) {
    var view, i := U.View(s.log.events, target), |s.subs|;
    && |t.subs| == i + 1 && t.subs[i].phase == U.Live && t.log == s.log
    && t.subs[i].out == U.Messages(if from <= |view| then view[from..] else []) + [U.CaughtUp]
  }

  /** In every state of a running server, a client that subscribes and polls catches up and goes live. */
  lemma SubscriberCatchesUp(cacheCapacity: nat, ringCapacity: nat, labels: seq<Label>, target: U.Target, from: u64)
    requires cacheCapacity > 0 && ringCapacity > 0 && Runs(Init(cacheCapacity, ringCapacity), labels)
    requires !After(Init(cacheCapacity, ringCapacity), labels).phase.Down?
    ensures var s := After(Init(cacheCapacity, ringCapacity), labels);
            var more := CatchUpLabels(s, target, from);
            Runs(s, more) && CaughtUp(s, After(s, more), target, from)
  {
    hide Runs, After, Init, SysOk, CatchUpLabels, CaughtUp;
    ReachableOk(cacheCapacity, ringCapacity, labels);
    CatchesUp(After(Init(cacheCapacity, ringCapacity), labels), target, from);
  }

  lemma CatchesUp(s: Sys, target: U.Target, from: u64)
    requires SysOk(s) && !s.phase.Down?
    ensures var more := CatchUpLabels(s, target, from); Runs(s, more) && CaughtUp(s, After(s, more), target, from)
  {
    hide SysOk, U.View, U.Messages, U.Poll, U.Readable, U.CatchingUp, Runs, After, Consistent, U.Fetches, U.Serves,
         U.Left, U.PollAll;
    var i, view := |s.subs|, U.View(s.log.events, target);
    var left := U.Left(view, from);
    var n := left + left / 500 + 2;
    UpConsistent(s);
    U.ConsistentReadable(s.log, target);
    SubscribeOnce(s, target, from);
    PollRun(After(s, [Subscribe(target, from)]), i, n);
    CatchUpTodo(target, from, view, s.ring);
    U.CatchUpEnds(target, from, s.log, s.ring, n);
    RunsConcat(s, [Subscribe(target, from)], Polls(i, n));
  }

  lemma CatchUpTodo(target: U.Target, from: u64, view: seq<RecordedEvent>, ring: B.Ring)
    ensures var left := U.Left(view, from);
            U.Todo(U.Register(target, from, ring), view) == left + left / 500 + 2
    ensures U.Register(target, from, ring).target == target && U.Register(target, from, ring).from == from
  {}

  lemma UpConsistent(s: Sys)
    requires SysOk(s) && !s.phase.Down?
    ensures Consistent(s.log) && U.Serves(s.log, s.base, s.ring)
    ensures forall i | 0 <= i < |s.subs| :: U.SubOk(s.subs[i], s.log, s.base, s.ring)
    ensures s.phase.Idle? ==> s.base + s.ring.tail == |s.log.events|
  {
    hide FileOk, AnswersOk, U.SubOk, AgreesWith, B.Carries, Consistent, R.Flatten, Pending, LiesIn, Accepted;
  }

  lemma SubscribeOnce(s: Sys, target: U.Target, from: u64)
    requires !s.phase.Down?
    ensures Runs(s, [Subscribe(target, from)])
    ensures After(s, [Subscribe(target, from)]) == s.(subs := s.subs + [U.Register(target, from, s.ring)])
  {
    OneMore(s, [], Subscribe(target, from));
    assert [] + [Subscribe(target, from)] == [Subscribe(target, from)];
  }

  /** The subscriber is live, and was sent everything there is of its log or stream from its start on. */
  ghost predicate Drained(s: Sys, t: Sys, i: nat) {
    && |t.subs| == |s.subs| && i < |s.subs| && t.log == s.log && t.subs[i].phase == U.Live
    && s.base + s.subs[i].registered <= |s.log.events|
    && var view := U.View(s.log.events, s.subs[i].target);
       var start := U.Start(t.subs[i], U.Reach(s.log.events, s.base, s.subs[i].registered, s.subs[i].target));
       start <= |view| && U.Delivered(t.subs[i].out) == view[start..]
  }

  /**
   * In every state of a server between requests, a live subscriber that is not overrun and polls once per waiting
   * message is still live and has been sent everything.
   */
  lemma SubscriberDrains(cacheCapacity: nat, ringCapacity: nat, labels: seq<Label>, i: nat, n: nat)
    requires cacheCapacity > 0 && ringCapacity > 0 && Runs(Init(cacheCapacity, ringCapacity), labels)
    requires var s := After(Init(cacheCapacity, ringCapacity), labels);
             && s.phase.Idle? && i < |s.subs| && s.subs[i].phase == U.Live
             && n == s.ring.tail - s.subs[i].next <= s.ring.capacity
    ensures var s := After(Init(cacheCapacity, ringCapacity), labels);
            Runs(s, Polls(i, n)) && Drained(s, After(s, Polls(i, n)), i)
  {
    hide Runs, After, Init, SysOk, Drained;
    ReachableOk(cacheCapacity, ringCapacity, labels);
    Drains(After(Init(cacheCapacity, ringCapacity), labels), i, n);
  }

  lemma Drains(s: Sys, i: nat, n: nat)
    requires SysOk(s) && s.phase.Idle? && i < |s.subs| && s.subs[i].phase == U.Live
    requires n == s.ring.tail - s.subs[i].next <= s.ring.capacity
    ensures Runs(s, Polls(i, n)) && Drained(s, After(s, Polls(i, n)), i)
  {
    hide SysOk, U.View, U.Delivered, U.Reach, U.Start, U.Poll, U.Readable, U.SubOk, U.Serves, Runs, After, U.PollAll;
    UpConsistent(s);
    U.SubReadable(s.subs[i], s.log, s.base, s.ring);
    PollRun(s, i, n);
    U.DrainsRing(s.subs[i], s.log, s.base, s.ring, n);
  }

  /** After a shutdown no request is taken, and a live subscriber that has drained the ring ends at its next poll. */
  lemma ClosedServerEnds(s: Sys, stamped: W.Stamped, i: nat)
    requires SysOk(s) && !s.phase.Down? && s.ring.closed
    ensures !Enabled(s, Submit(stamped))
    ensures i < |s.subs| && s.subs[i].phase == U.Live && s.subs[i].next == s.ring.tail ==>
              && Enabled(s, Poll(i))
              && Step(s, Poll(i)).subs == s.subs[i := s.subs[i].(phase := U.Ended)]
  {
    hide SysOk, Step, U.Readable, Consistent, U.Serves, W.Admitted;
    UpConsistent(s);
    if i < |s.subs| {
      U.ConsistentReadable(s.log, s.subs[i].target);
      PollOnce(s, i);
    }
  }

  /** A shutdown closes the ring and changes nothing else; after it, the server is still up for reads. */
  lemma CloseOnce(s: Sys)
    requires Enabled(s, Close)
    ensures Step(s, Close) == s.(ring := s.ring.(closed := true)) && !s.phase.Down?
  {}
}
