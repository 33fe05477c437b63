/** Subscriptions: catch up from the log in batches, mark the seam, then follow the ring without duplicates. */
module Subscription {
  import opened Bytes
  import opened Types
  import opened Index
  import opened Broker
  import Appending

  const CATCHUP_BATCH_SIZE: nat := 500

  /** `subscribe_all` or `subscribe_stream`. */
  datatype Target = Everything | OneStream(id: Uuid)

  datatype Message = Event(event: RecordedEvent) | CaughtUp | LagError

  datatype Phase = CatchUp | Live | Ended

  /**
   * The state of a subscription between two polls: `cursor` and `last` as in the source, the events read
   * but not yet yielded, whether the last read was short, the receiver, and everything yielded so far.
   * `registered` is the ring's message count when the receiver was created, `fetches` the number of reads made, and
   * `indexed` how many events of the target the log held at the first of them.
   */
  datatype Sub = Sub(
    target: Target,
    from: u64,
    cursor: u64,
    last: Option<u64>,
    pending: seq<RecordedEvent>,
    short: bool,
    phase: Phase,
    registered: nat,
    next: nat,
    fetches: nat,
    indexed: nat,
    out: seq<Message>)

  function Register(target: Target, from: u64, ring: Ring): Sub {
    Sub(target, from, from, None, [], false, CatchUp, ring.tail, ring.tail, 0, 0, [])
  }

  predicate Wanted(e: RecordedEvent, target: Target) {
    match target
    case Everything => true
    case OneStream(id) => e.streamId == id
  }

  /** The coordinate the subscription counts in: global position or stream version. */
  function Key(e: RecordedEvent, target: Target): u64 {
    match target
    case Everything => e.globalPosition
    case OneStream(_) => e.streamVersion
  }

  predicate Readable(log: Log, target: Target) {
    target.OneStream? ==> InRange(Entry(log.streams, target.id), |log.events|)
  }

  /** One catch-up read; a missing stream reads as an empty, final batch. */
  function ReadBatch(log: Log, target: Target, cursor: u64): seq<RecordedEvent>
    requires Readable(log, target)
  {
    match target
    case Everything => ReadAll(log, cursor, CATCHUP_BATCH_SIZE)
    case OneStream(id) =>
      match ReadStream(log, id, cursor, CATCHUP_BATCH_SIZE)
      case Ok(batch) => batch
      case Err(_) => []
  }

  function Advance(sub: Sub, e: RecordedEvent): Sub {
    var key := Key(e, sub.target);
    sub.(last := Some(key), cursor := (key + 1) % 0x1_0000_0000_0000_0000, out := sub.out + [Event(e)])
  }

  /** Run the subscription to its next suspension point. */
  function Poll(sub: Sub, log: Log, ring: Ring): Sub
    requires Readable(log, sub.target)
  {
    match sub.phase
    case CatchUp =>
      if sub.pending != [] then Advance(sub, sub.pending[0]).(pending := sub.pending[1..])
      else if sub.short then sub.(phase := Live, out := sub.out + [CaughtUp])
      else
        var batch := ReadBatch(log, sub.target, sub.cursor);
        sub.(pending := batch, short := |batch| < CATCHUP_BATCH_SIZE, fetches := sub.fetches + 1,
             indexed := if sub.fetches == 0 then |View(log.events, sub.target)| else sub.indexed)
    case Live =>
      (match Receive(ring, sub.next)
       case Nothing => sub
       case Closed => sub.(phase := Ended)
       case Overrun => sub.(phase := Ended, out := sub.out + [LagError])
       case Got(e) =>
         if Wanted(e, sub.target) && !(sub.last.Some? && Key(e, sub.target) <= sub.last.value)
         then sub.(next := sub.next + 1, out := sub.out + [Event(e)])
         else sub.(next := sub.next + 1))
    case Ended => sub
  }

  // -------------------------------------------------------------------------- reference definitions

  /** What a subscription is about: the whole log, or one stream's projection. */
  function View(events: seq<RecordedEvent>, target: Target): seq<RecordedEvent> {
    match target
    case Everything => events
    case OneStream(id) => Project(events, id)
  }

  function Messages(events: seq<RecordedEvent>): (m: seq<Message>)
    ensures |m| == |events|
  {
    seq(|events|, i requires 0 <= i < |events| => Event(events[i]))
  }

  /** How many events of the target are among the recovered ones and the first `n` messages. */
  function Reach(events: seq<RecordedEvent>, base: nat, n: nat, target: Target): nat
    requires base + n <= |events|
  {
    |View(events[..base + n], target)|
  }

  /**
   * The server a subscription runs against: `base` events were recovered, and the ring carries what was published
   * after them.
   */
  ghost predicate Serves(log: Log, base: nat, ring: Ring) {
    && Appending.Consistent(log)
    && base + ring.tail <= |log.events|
    && Carries(ring, log.events[base..base + ring.tail])
  }

  function Max(a: nat, b: nat): nat {
    if a < b then b else a
  }

  /** Where the live part starts: behind the catch-up, or at registration when the catch-up was empty. */
  function Seam(sub: Sub, registered: nat): nat {
    if sub.last.Some? then sub.cursor else registered
  }

  /** The events yielded before the seam: the view from `from` to `cursor`. */
  function Caught(sub: Sub, view: seq<RecordedEvent>): seq<RecordedEvent> {
    if sub.from <= sub.cursor <= |view| then view[sub.from..sub.cursor] else []
  }

  /** Everything yielded once live, when the receiver has seen `reach` events of the view. */
  function Told(sub: Sub, view: seq<RecordedEvent>, registered: nat, reach: nat): seq<Message>
    requires Seam(sub, registered) <= |view| && reach <= |view|
  {
    Messages(Caught(sub, view)) + [CaughtUp] + Messages(view[Seam(sub, registered)..Max(Seam(sub, registered), reach)])
  }

  /** The catch-up has found an event. */
  predicate Found(sub: Sub) {
    sub.last.Some? || sub.pending != []
  }

  /** Whether the catch-up finds anything is decided by its first read: exactly when `from` was indexed then. */
  predicate Decided(sub: Sub) {
    if sub.fetches == 0 then sub.phase == CatchUp && !Found(sub) && !sub.short
    else (Found(sub) <==> sub.from < sub.indexed) && (Found(sub) || sub.short)
  }

  /**
   * What a subscription has yielded, in terms of the view alone: `registered` and `reach` are how many
   * events of the view had been published at registration and up to the receiver's next message.
   */
  ghost predicate Follows(sub: Sub, view: seq<RecordedEvent>, registered: nat, reach: nat) {
    && Decided(sub)
    && sub.from <= sub.cursor
    && (sub.cursor == sub.from <==> sub.last.None?)
    && (sub.last.Some? ==> sub.cursor <= |view| && sub.last.value == sub.cursor - 1)
    && registered <= reach <= |view| < 0x1_0000_0000_0000_0000
    && (sub.short || sub.phase != CatchUp ==> sub.cursor + |sub.pending| >= registered)
    && (sub.phase == CatchUp ==>
        && (sub.pending != [] ==>
            sub.cursor + |sub.pending| <= |view| && sub.pending == view[sub.cursor..sub.cursor + |sub.pending|])
        && sub.out == Messages(Caught(sub, view)))
    && (sub.phase != CatchUp ==> sub.pending == [])
    && (sub.phase == Live ==> sub.out == Told(sub, view, registered, reach))
    && (sub.phase == Ended ==>
        || sub.out == Told(sub, view, registered, reach)
        || sub.out == Told(sub, view, registered, reach) + [LagError])
  }

  /** The invariant of a subscription, in every state of every interleaving. */
  ghost predicate SubOk(sub: Sub, log: Log, base: nat, ring: Ring)
    requires Serves(log, base, ring)
  {
    && sub.registered <= sub.next <= ring.tail
    && (sub.phase == CatchUp ==> sub.next == sub.registered)
    && Follows(sub, View(log.events, sub.target),
               Reach(log.events, base, sub.registered, sub.target),
               Reach(log.events, base, sub.next, sub.target))
  }

  // ---------------------------------------------------------------------------- facts about views

  lemma ViewConcat(a: seq<RecordedEvent>, b: seq<RecordedEvent>, target: Target)
    ensures View(a + b, target) == View(a, target) + View(b, target)
  {
    if target.OneStream? {
      ProjectConcat(a, b, target.id);
    }
  }

  lemma ViewPrefix(events: seq<RecordedEvent>, i: nat, j: nat, target: Target)
    requires i <= j <= |events|
    ensures View(events[..i], target) <= View(events[..j], target) <= View(events, target)
  {
    assert events[..j] == events[..i] + events[i..j] && events == events[..j] + events[j..];
    ViewConcat(events[..i], events[i..j], target);
    ViewConcat(events[..j], events[j..], target);
  }

  lemma ViewStep(events: seq<RecordedEvent>, i: nat, target: Target)
    requires i < |events|
    ensures View(events[..i + 1], target)
            == View(events[..i], target) + (if Wanted(events[i], target) then [events[i]] else [])
  {
    if target.OneStream? {
      ProjectStep(events, i, target.id);
    } else {
      assert events[..i + 1] == events[..i] + [events[i]];
    }
  }

  /** The `k`-th event of a view has key `k`: keys rise by exactly one. */
  lemma ViewKeys(events: seq<RecordedEvent>, target: Target, k: nat)
    requires WellPositioned(events) && k < |View(events, target)|
    ensures Key(View(events, target)[k], target) == k && Wanted(View(events, target)[k], target)
  {
    if target.OneStream? {
      ProjectVersions(events, target.id, k);
    }
  }

  lemma ViewSize(events: seq<RecordedEvent>, target: Target)
    ensures |View(events, target)| <= |events|
  {
    if target.OneStream? {
      ProjectSize(events, target.id);
    }
  }

  lemma ConsistentReadable(log: Log, target: Target)
    requires Appending.Consistent(log)
    ensures Readable(log, target)
  {
    if target.OneStream? {
      EntryInRange(log, target.id);
    }
  }

  /** A catch-up read returns the next events of the view. */
  lemma ReadBatchIsWindow(log: Log, target: Target, cursor: u64)
    requires Appending.Consistent(log)
    ensures Readable(log, target)
    ensures ReadBatch(log, target, cursor) == Window(View(log.events, target), cursor, CATCHUP_BATCH_SIZE)
  {
    if target.OneStream? {
      ReadStreamIsWindow(log, target.id, cursor, CATCHUP_BATCH_SIZE);
    } else {
      ReadAllIsWindow(log, cursor, CATCHUP_BATCH_SIZE);
    }
  }

  // ------------------------------------------------------------------- the invariant is inductive

  lemma RegisterOk(target: Target, from: u64, log: Log, base: nat, ring: Ring)
    requires Serves(log, base, ring)
    ensures SubOk(Register(target, from, ring), log, base, ring)
    ensures Register(target, from, ring).registered == ring.tail && Register(target, from, ring).out == []
  {
    hide WellPositioned, Indexed, Carries, View;
    ViewPrefix(log.events, base + ring.tail, |log.events|, target);
    ViewSize(log.events, target);
  }

  lemma YieldFollows(sub: Sub, view: seq<RecordedEvent>, registered: nat, reach: nat)
    requires Follows(sub, view, registered, reach)
    requires sub.phase == CatchUp && sub.pending != [] && Key(sub.pending[0], sub.target) == sub.cursor
    ensures Follows(Advance(sub, sub.pending[0]).(pending := sub.pending[1..]), view, registered, reach)
  {
    var sub' := Advance(sub, sub.pending[0]).(pending := sub.pending[1..]);
    assert sub.pending[0] == view[sub.cursor];
    assert Caught(sub', view) == Caught(sub, view) + [view[sub.cursor]];
    assert sub'.out == Messages(Caught(sub', view));
  }

  lemma SeamFollows(sub: Sub, view: seq<RecordedEvent>, registered: nat)
    requires Follows(sub, view, registered, registered)
    requires sub.phase == CatchUp && sub.pending == [] && sub.short
    ensures Follows(sub.(phase := Live, out := sub.out + [CaughtUp]), view, registered, registered)
  {
    var sub' := sub.(phase := Live, out := sub.out + [CaughtUp]);
    var seam := Seam(sub', registered);
    assert Messages(view[seam..seam]) == [];
    assert sub'.out == Told(sub', view, registered, registered);
  }

  /** Receiving event `reach` of the view: it is yielded when catch-up has not passed it, and skipped otherwise. */
  lemma ReceiveFollows(sub: Sub, view: seq<RecordedEvent>, registered: nat, reach: nat, e: RecordedEvent)
    requires Follows(sub, view, registered, reach) && sub.phase == Live
    requires reach < |view| && view[reach] == e && Key(e, sub.target) == reach
    ensures Follows(if sub.last.Some? && Key(e, sub.target) <= sub.last.value then sub.(next := sub.next + 1)
                    else sub.(next := sub.next + 1, out := sub.out + [Event(e)]),
                    view, registered, reach + 1)
  {
    var seam := Seam(sub, registered);
    if reach >= seam {
      assert view[seam..reach + 1] == view[seam..reach] + [e];
      assert Messages(view[seam..reach + 1]) == Messages(view[seam..reach]) + [Event(e)];
      var sub' := sub.(next := sub.next + 1, out := sub.out + [Event(e)]);
      assert sub'.out == Told(sub', view, registered, reach + 1);
    }
  }

  lemma GrowFollows(sub: Sub, view: seq<RecordedEvent>, view': seq<RecordedEvent>, registered: nat, reach: nat)
    requires Follows(sub, view, registered, reach) && view <= view' && |view'| < 0x1_0000_0000_0000_0000
    ensures Follows(sub, view', registered, reach)
  {
    assert forall i, j | 0 <= i <= j <= |view| :: view'[i..j] == view[i..j];
    assert Caught(sub, view') == Caught(sub, view);
  }

  lemma YieldOk(sub: Sub, log: Log, base: nat, ring: Ring)
    requires Serves(log, base, ring) && SubOk(sub, log, base, ring)
    requires sub.phase == CatchUp && sub.pending != []
    ensures SubOk(Advance(sub, sub.pending[0]).(pending := sub.pending[1..]), log, base, ring)
  {
    hide Indexed, IndexOf, WellPositioned, Carries, View;
    ViewKeys(log.events, sub.target, sub.cursor);
    YieldFollows(sub, View(log.events, sub.target),
                 Reach(log.events, base, sub.registered, sub.target), Reach(log.events, base, sub.next, sub.target));
  }

  lemma FetchOk(sub: Sub, log: Log, base: nat, ring: Ring)
    requires Serves(log, base, ring) && SubOk(sub, log, base, ring)
    requires sub.phase == CatchUp && sub.pending == [] && !sub.short
    requires Readable(log, sub.target)
    ensures SubOk(Poll(sub, log, ring), log, base, ring)
  {
    hide Indexed, IndexOf, WellPositioned, Carries, View, ReadBatch, Readable, Reach, Messages;
    ReadBatchIsWindow(log, sub.target, sub.cursor);
  }

  lemma LiveOk(sub: Sub, log: Log, base: nat, ring: Ring)
    requires Serves(log, base, ring) && SubOk(sub, log, base, ring)
    requires sub.phase == Live && Readable(log, sub.target)
    ensures SubOk(Poll(sub, log, ring), log, base, ring)
  {
    hide Indexed, IndexOf, WellPositioned, View, Readable, Follows, Carries, Receive;
    var events := log.events;
    var registered, reach := Reach(events, base, sub.registered, sub.target), Reach(events, base, sub.next, sub.target);
    ReceiveExact(ring, events[base..base + ring.tail], sub.next);
    match Receive(ring, sub.next)
    case Nothing =>
    case Closed => EndFollows(sub, View(events, sub.target), registered, reach);
    case Overrun => EndFollows(sub, View(events, sub.target), registered, reach);
    case Got(e) =>
      var i := base + sub.next;
      assert e == events[i];
      ViewStep(events, i, sub.target);
      ViewPrefix(events, i, i + 1, sub.target);
      if Wanted(e, sub.target) {
        assert View(events, sub.target)[reach] == e;
        ViewKeys(events, sub.target, reach);
        ReceiveFollows(sub, View(events, sub.target), registered, reach, e);
      } else {
        SkipFollows(sub, View(events, sub.target), registered, reach);
      }
  }

  lemma EndFollows(sub: Sub, view: seq<RecordedEvent>, registered: nat, reach: nat)
    requires Follows(sub, view, registered, reach) && sub.phase == Live
    ensures Follows(sub.(phase := Ended), view, registered, reach)
    ensures Follows(sub.(phase := Ended, out := sub.out + [LagError]), view, registered, reach)
  {}

  lemma SkipFollows(sub: Sub, view: seq<RecordedEvent>, registered: nat, reach: nat)
    requires Follows(sub, view, registered, reach) && sub.phase == Live
    ensures Follows(sub.(next := sub.next + 1), view, registered, reach)
  {}

  /** A subscription's own steps keep the invariant. */
  lemma PollOk(sub: Sub, log: Log, base: nat, ring: Ring)
    requires Serves(log, base, ring) && SubOk(sub, log, base, ring)
    ensures Readable(log, sub.target)
    ensures SubOk(Poll(sub, log, ring), log, base, ring)
  {
    hide Indexed, IndexOf, WellPositioned, Carries, View, ReadBatch, Follows, Reach;
    ConsistentReadable(log, sub.target);
    match sub.phase
    case CatchUp =>
      if sub.pending != [] {
        YieldOk(sub, log, base, ring);
      } else if sub.short {
        SeamFollows(sub, View(log.events, sub.target), Reach(log.events, base, sub.registered, sub.target));
      } else {
        FetchOk(sub, log, base, ring);
      }
    case Live =>
      LiveOk(sub, log, base, ring);
    case Ended =>
  }

  /** So does indexing more events. */
  lemma GrowOk(sub: Sub, log: Log, log': Log, base: nat, ring: Ring)
    requires Serves(log, base, ring) && SubOk(sub, log, base, ring)
    requires Appending.Consistent(log') && log.events <= log'.events
    ensures Serves(log', base, ring)
    ensures SubOk(sub, log', base, ring)
  {
    hide Indexed, IndexOf, WellPositioned, Carries, View, Follows;
    var n := |log.events|;
    assert log'.events[..n] == log.events;
    assert log'.events[base..base + ring.tail] == log.events[base..base + ring.tail];
    ViewPrefix(log'.events, n, n, sub.target);
    ViewSize(log'.events, sub.target);
    assert log'.events[..base + sub.registered] == log.events[..base + sub.registered];
    assert log'.events[..base + sub.next] == log.events[..base + sub.next];
    GrowFollows(sub, View(log.events, sub.target), View(log'.events, sub.target),
                Reach(log.events, base, sub.registered, sub.target), Reach(log.events, base, sub.next, sub.target));
  }

  /** And publishing the next indexed event. */
  lemma PublishOk(sub: Sub, log: Log, base: nat, ring: Ring)
    requires Serves(log, base, ring) && SubOk(sub, log, base, ring)
    requires base + ring.tail < |log.events|
    ensures var ring' := Send(ring, log.events[base + ring.tail]);
            Serves(log, base, ring') && SubOk(sub, log, base, ring')
  {
    hide Indexed, IndexOf, WellPositioned, Carries, View, Follows, Reach;
    var sent := log.events[base..base + ring.tail];
    SendCarries(ring, sent, log.events[base + ring.tail]);
    assert log.events[base..base + ring.tail + 1] == sent + [log.events[base + ring.tail]];
  }

  // -------------------------------------------------------------------------- what subscribers see

  /** The events among the messages, in order. */
  function Delivered(out: seq<Message>): seq<RecordedEvent> {
    if out == [] then []
    else
      var n := |out| - 1;
      Delivered(out[..n]) + (if out[n].Event? then [out[n].event] else [])
  }

  lemma {:induction false} DeliveredConcat(a: seq<Message>, b: seq<Message>)
    ensures Delivered(a + b) == Delivered(a) + Delivered(b)
    decreases |b|
  {
    if b == [] {
      assert a + b == a;
    } else {
      var n := |b| - 1;
      assert (a + b)[..|a + b| - 1] == a + b[..n];
      DeliveredConcat(a, b[..n]);
    }
  }

  lemma {:induction false} DeliveredMessages(events: seq<RecordedEvent>)
    ensures Delivered(Messages(events)) == events
  {
    if events != [] {
      var n := |events| - 1;
      assert Messages(events)[..n] == Messages(events[..n]);
      DeliveredMessages(events[..n]);
      assert events == events[..n] + [events[n]];
    }
  }

  /** The key of the first event a subscription yields. */
  function Start(sub: Sub, registered: nat): nat {
    if sub.phase == CatchUp || sub.last.Some? then sub.from else registered
  }

  /** Once live, everything the receiver has seen of the view, or catch-up has read, has been yielded. */
  function Head(sub: Sub, registered: nat, reach: nat): nat {
    Max(Seam(sub, registered), reach)
  }

  lemma DeliveredFollows(sub: Sub, view: seq<RecordedEvent>, registered: nat, reach: nat)
    requires Follows(sub, view, registered, reach)
    ensures var d, start := Delivered(sub.out), Start(sub, registered);
            && (d != [] ==> start + |d| <= |view| && d == view[start..start + |d|])
            && (sub.phase != CatchUp ==>
                start <= Head(sub, registered, reach) && d == view[start..Head(sub, registered, reach)])
  {
    hide Delivered, Messages;
    var caught := Caught(sub, view);
    if sub.phase == CatchUp {
      DeliveredMessages(caught);
    } else {
      var live := view[Seam(sub, registered)..Head(sub, registered, reach)];
      DeliveredTold(caught, live);
      assert caught + live == view[Start(sub, registered)..Head(sub, registered, reach)];
    }
  }

  lemma DeliveredTold(caught: seq<RecordedEvent>, live: seq<RecordedEvent>)
    ensures var told := Messages(caught) + [CaughtUp] + Messages(live);
            Delivered(told) == caught + live && Delivered(told + [LagError]) == caught + live
  {
    hide Messages;
    var told := Messages(caught) + [CaughtUp] + Messages(live);
    DeliveredMessages(caught);
    DeliveredMessages(live);
    DeliveredConcat(Messages(caught), [CaughtUp]);
    DeliveredConcat(Messages(caught) + [CaughtUp], Messages(live));
    assert (told + [LagError])[..|told|] == told;
    assert Delivered([CaughtUp]) == [];
  }

  /**
   * The delivered events are consecutive events of the view, so keys rise by exactly one. They start at `from`
   * exactly when `from` is not beyond what had been published at registration, or was indexed at the first read.
   */
  ghost predicate NoGap(sub: Sub, view: seq<RecordedEvent>, registered: nat) {
    var d, start := Delivered(sub.out), Start(sub, registered);
    && (forall i | 0 <= i < |d| ::
          && start + i < |view| && d[i] == view[start + i]
          && Key(d[i], sub.target) == start + i && Wanted(d[i], sub.target))
    && (d != [] ==> (Key(d[0], sub.target) == sub.from <==> sub.from <= registered || sub.from < sub.indexed))
  }

  /** No gap and no duplicate, under every interleaving and across the seam. */
  lemma DeliveryExact(sub: Sub, log: Log, base: nat, ring: Ring)
    requires Serves(log, base, ring) && SubOk(sub, log, base, ring)
    ensures NoGap(sub, View(log.events, sub.target), Reach(log.events, base, sub.registered, sub.target))
  {
    hide Indexed, IndexOf, Carries, View, WellPositioned, Follows, Delivered, Start, Reach;
    var view := View(log.events, sub.target);
    var registered := Reach(log.events, base, sub.registered, sub.target);
    var reach := Reach(log.events, base, sub.next, sub.target);
    DeliveredFollows(sub, view, registered, reach);
    DeliveredKeys(log.events, sub.target, Delivered(sub.out), Start(sub, registered));
    if Delivered(sub.out) != [] {
      StartExact(sub, view, registered, reach);
    }
  }

  /** A slice of a view has the keys it starts with and no foreign events. */
  lemma DeliveredKeys(events: seq<RecordedEvent>, target: Target, d: seq<RecordedEvent>, start: nat)
    requires WellPositioned(events)
    requires d != [] ==> start + |d| <= |View(events, target)| && d == View(events, target)[start..start + |d|]
    ensures forall i | 0 <= i < |d| ::
              && start + i < |View(events, target)| && d[i] == View(events, target)[start + i]
              && Key(d[i], target) == start + i && Wanted(d[i], target)
  {
    hide WellPositioned, View;
    forall i | 0 <= i < |d|
      ensures Key(d[i], target) == start + i && Wanted(d[i], target)
    {
      ViewKeys(events, target, start + i);
    }
  }

  /** Delivery starts at the requested key exactly when that was published at registration or indexed at first read. */
  lemma StartExact(sub: Sub, view: seq<RecordedEvent>, registered: nat, reach: nat)
    requires Follows(sub, view, registered, reach) && Delivered(sub.out) != []
    ensures Start(sub, registered) == sub.from <==> sub.from <= registered || sub.from < sub.indexed
  {
    if sub.phase == CatchUp {
      assert Caught(sub, view) != [] by { DeliveredMessages(Caught(sub, view)); }
    }
  }

  /**
   * Starting beyond the head does not skip: subscribe to an empty log from a position that does not exist yet,
   * and the first event published afterwards is delivered although its position is smaller.
   */
  lemma FutureStartIsIgnored(from: u64, e: RecordedEvent)
    requires 0 < from && e.globalPosition == 0
    ensures var ring := NewRing(1);
            var empty, one := Log([], map[]), Log([e], IndexOf([e]));
            var sub := Poll(Poll(Register(Everything, from, ring), empty, ring), empty, ring);
            var out := Poll(sub, one, Send(ring, e)).out;
            out == [CaughtUp, Event(e)] && Key(Delivered(out)[0], Everything) < from
  {
    var ring := NewRing(1);
    var empty := Log([], map[]);
    var fetched := Poll(Register(Everything, from, ring), empty, ring);
    assert fetched.pending == [] && fetched.short;
    assert Delivered([CaughtUp, Event(e)][..1]) == [];
  }

  /**
   * Nothing is missing: a live subscription that has drained a ring with everything published has delivered the
   * whole rest of the view.
   */
  lemma DrainedIsComplete(sub: Sub, log: Log, base: nat, ring: Ring)
    requires Serves(log, base, ring) && SubOk(sub, log, base, ring)
    requires sub.phase == Live && sub.next == ring.tail && base + ring.tail == |log.events|
    ensures var view := View(log.events, sub.target);
            var start := Start(sub, Reach(log.events, base, sub.registered, sub.target));
            start <= |view| && Delivered(sub.out) == view[start..]
  {
    hide Indexed, IndexOf, Carries, View, WellPositioned;
    assert log.events[..base + sub.next] == log.events;
    var view := View(log.events, sub.target);
    DeliveredFollows(sub, view, Reach(log.events, base, sub.registered, sub.target), |view|);
  }

  /** Event* , or Event* CaughtUp Event*, the latter perhaps ended by one error. */
  ghost predicate Shaped(out: seq<Message>) {
    exists before: seq<RecordedEvent>, after: seq<RecordedEvent> ::
      || out == Messages(before)
      || out == Messages(before) + [CaughtUp] + Messages(after)
      || out == Messages(before) + [CaughtUp] + Messages(after) + [LagError]
  }

  lemma TraceShape(sub: Sub, view: seq<RecordedEvent>, registered: nat, reach: nat)
    requires Follows(sub, view, registered, reach)
    ensures Shaped(sub.out)
    ensures LagError in sub.out ==> sub.phase == Ended && sub.out[|sub.out| - 1] == LagError
  {
    var before := Caught(sub, view);
    assert forall m <- Messages(before) :: m.Event?;
    if sub.phase == CatchUp {
      var after: seq<RecordedEvent> := [];
      assert sub.out == Messages(before) || sub.out == Messages(before) + [CaughtUp] + Messages(after);
    } else {
      var after := view[Seam(sub, registered)..Head(sub, registered, reach)];
      var told := Messages(before) + [CaughtUp] + Messages(after);
      assert forall m <- told :: m.Event? || m.CaughtUp?;
      assert sub.out == told || sub.out == told + [LagError];
    }
  }

  /** An overrun receiver never continues silently: its next poll ends the subscription with the error. */
  lemma OverrunEnds(sub: Sub, log: Log, base: nat, ring: Ring)
    requires Serves(log, base, ring) && Readable(log, sub.target) && sub.phase == Live && sub.next <= ring.tail
    ensures ring.tail - sub.next > ring.capacity
            <==> Poll(sub, log, ring) == sub.(phase := Ended, out := sub.out + [LagError])
  {
    hide Indexed, IndexOf, Carries, Receive, WellPositioned;
    ReceiveExact(ring, log.events[base..base + ring.tail], sub.next);
    assert |sub.out + [LagError]| == |sub.out| + 1;
  }

  // ------------------------------------------------------------- where it starts and how often it reads

  /** One read for every full batch, and one more, which finds fewer than a batch. */
  function Fetches(view: seq<RecordedEvent>, from: nat): nat {
    if from <= |view| then (|view| - from) / 500 + 1 else 1
  }

  /** The log and the ring as one poll finds them. */
  datatype Server = Server(log: Log, ring: Ring)

  predicate AllReadable(servers: seq<Server>, target: Target) {
    forall i | 0 <= i < |servers| :: Readable(servers[i].log, target)
  }

  /** Polling once per state of the server. */
  function PollAll(sub: Sub, servers: seq<Server>): (r: Sub)
    requires AllReadable(servers, sub.target)
    ensures r.target == sub.target && r.from == sub.from && r.registered == sub.registered
  {
    if servers == [] then sub else
    var n := |servers| - 1;
    Poll(PollAll(sub, servers[..n]), servers[n].log, servers[n].ring)
  }

  lemma {:induction false} FirstReadRemembered(target: Target, from: u64, ring: Ring, servers: seq<Server>)
    requires servers != [] && AllReadable(servers, target)
    ensures var sub := PollAll(Register(target, from, ring), servers);
            sub.fetches > 0 && sub.indexed == |View(servers[0].log.events, target)|
    decreases |servers|
  {
    hide View, ReadBatch, Readable, Receive;
    var n := |servers| - 1;
    if n > 0 {
      FirstReadRemembered(target, from, ring, servers[..n]);
    } else {
      assert servers[..0] == [];
    }
  }

  /**
   * Where a subscription starts, by what the server held at its first read and whatever it held later: at the
   * requested key if and only if that was published at registration or indexed at the first read.
   */
  lemma StartDecidedByFirstRead(target: Target, from: u64, ring: Ring, servers: seq<Server>, log: Log, base: nat,
                                now: Ring)
    requires servers != [] && AllReadable(servers, target) && Serves(log, base, now)
    requires SubOk(PollAll(Register(target, from, ring), servers), log, base, now)
    requires Delivered(PollAll(Register(target, from, ring), servers).out) != []
    ensures ring.tail <= now.tail
    ensures Key(Delivered(PollAll(Register(target, from, ring), servers).out)[0], target) == from
            <==> || from <= Reach(log.events, base, ring.tail, target)
                 || from < |View(servers[0].log.events, target)|
  {
    hide Indexed, IndexOf, Carries, View, WellPositioned, Follows, Delivered, Reach, Poll, AllReadable;
    var sub := PollAll(Register(target, from, ring), servers);
    FirstReadRemembered(target, from, ring, servers);
    DeliveryExact(sub, log, base, now);
  }

  ghost predicate Counts(sub: Sub, view: seq<RecordedEvent>) {
    && (sub.phase == CatchUp && sub.pending != [] ==>
        sub.cursor + |sub.pending| <= |view| && sub.pending == view[sub.cursor..sub.cursor + |sub.pending|])
    && (sub.phase == CatchUp && !sub.short ==>
        && sub.cursor + |sub.pending| == sub.from + sub.fetches * CATCHUP_BATCH_SIZE
        && (sub.fetches > 0 ==> sub.cursor + |sub.pending| <= |view|))
    && (sub.short || sub.phase != CatchUp ==> sub.fetches == Fetches(view, sub.from))
  }

  /** A read behind `n` full batches finds fewer than a batch exactly when it is the last. */
  lemma LastFetch(view: seq<RecordedEvent>, from: nat, n: nat)
    requires n > 0 ==> from + n * CATCHUP_BATCH_SIZE <= |view|
    ensures var cursor := from + n * CATCHUP_BATCH_SIZE;
            var batch := Window(view, cursor, CATCHUP_BATCH_SIZE);
            && (batch != [] ==> cursor + |batch| <= |view| && batch == view[cursor..cursor + |batch|])
            && |batch| <= CATCHUP_BATCH_SIZE
            && (|batch| < CATCHUP_BATCH_SIZE ==> Fetches(view, from) == n + 1)
  {}

  lemma PollCounts(sub: Sub, log: Log, ring: Ring)
    requires Appending.Consistent(log) && Counts(sub, View(log.events, sub.target))
    ensures Readable(log, sub.target)
    ensures Counts(Poll(sub, log, ring), View(log.events, sub.target))
  {
    hide Indexed, IndexOf, WellPositioned, View, ReadBatch, Readable, Receive, Fetches, Key, Wanted, Window;
    var view := View(log.events, sub.target);
    ViewSize(log.events, sub.target);
    ReadBatchIsWindow(log, sub.target, sub.cursor);
    if sub.phase == CatchUp && sub.pending != [] {
      ViewKeys(log.events, sub.target, sub.cursor);
    } else if sub.phase == CatchUp && !sub.short {
      LastFetch(view, sub.from, sub.fetches);
    }
  }

  /** On a log that does not change, going live takes exactly the reads of the catch-up loop, and no poll makes more. */
  lemma {:induction false} FetchesExact(target: Target, from: u64, log: Log, ring: Ring, servers: seq<Server>)
    requires Appending.Consistent(log) && forall i | 0 <= i < |servers| :: servers[i].log == log
    ensures AllReadable(servers, target)
    ensures var sub, view := PollAll(Register(target, from, ring), servers), View(log.events, target);
            && Counts(sub, view) && sub.fetches <= Fetches(view, from)
            && (sub.phase != CatchUp ==> sub.fetches == Fetches(view, from))
    decreases |servers|
  {
    hide Indexed, IndexOf, WellPositioned, View, Readable, Poll;
    ConsistentReadable(log, target);
    if servers != [] {
      var n := |servers| - 1;
      FetchesExact(target, from, log, ring, servers[..n]);
      PollCounts(PollAll(Register(target, from, ring), servers[..n]), log, servers[n].ring);
    }
  }

  // ------------------------------------------------------------------------------------- progress

  /**
   * When a live subscription ends, and that it otherwise goes on: it ends exactly when it was overrun, or has drained
   * a closed ring; a waiting message is taken, and without one nothing changes. An ended one stays as it is.
   */
  lemma LivePollExact(sub: Sub, log: Log, base: nat, ring: Ring)
    requires Serves(log, base, ring) && Readable(log, sub.target) && sub.next <= ring.tail
    ensures sub.phase == Live ==>
              var waiting, polled := ring.tail - sub.next, Poll(sub, log, ring);
              && (polled.phase == Ended <==> waiting > ring.capacity || (waiting == 0 && ring.closed))
              && (polled.phase != Ended ==>
                  polled.phase == Live && polled.next == if waiting == 0 then sub.next else sub.next + 1)
              && (polled.phase != Ended && waiting == 0 ==> polled == sub)
    ensures sub.phase == Ended ==> Poll(sub, log, ring) == sub
  {
    hide Indexed, IndexOf, Carries, Receive, WellPositioned;
    ReceiveExact(ring, log.events[base..base + ring.tail], sub.next);
  }

  /** The same state of the server, for `n` polls. */
  function Still(log: Log, ring: Ring, n: nat): (servers: seq<Server>)
    ensures |servers| == n
  {
    seq(n, i => Server(log, ring))
  }

  /** One more poll of the same server. */
  lemma StillOneMore(sub: Sub, log: Log, ring: Ring, n: nat)
    requires Readable(log, sub.target)
    ensures AllReadable(Still(log, ring, n), sub.target) && AllReadable(Still(log, ring, n + 1), sub.target)
    ensures PollAll(sub, Still(log, ring, n + 1)) == Poll(PollAll(sub, Still(log, ring, n)), log, ring)
  {
    hide Poll, Readable;
    assert Still(log, ring, n + 1)[..n] == Still(log, ring, n);
  }

  /**
   * A live subscription that was not overrun drains the ring, one message per poll, and is still live; with everything
   * published it has then delivered the whole rest of its log or stream.
   */
  lemma {:induction false} DrainsRing(sub: Sub, log: Log, base: nat, ring: Ring, n: nat)
    requires Serves(log, base, ring) && SubOk(sub, log, base, ring) && sub.phase == Live
    requires n <= ring.tail - sub.next <= ring.capacity
    ensures AllReadable(Still(log, ring, n), sub.target)
    ensures var polled := PollAll(sub, Still(log, ring, n));
            && SubOk(polled, log, base, ring) && polled.phase == Live && polled.next == sub.next + n
            && (n == ring.tail - sub.next && base + ring.tail == |log.events| ==>
                var view := View(log.events, sub.target);
                var start := Start(polled, Reach(log.events, base, sub.registered, sub.target));
                start <= |view| && Delivered(polled.out) == view[start..])
    decreases n
  {
    hide Serves, SubOk, Poll, View, Readable, Reach, Delivered, Start;
    SubReadable(sub, log, base, ring);
    if n > 0 {
      DrainsRing(sub, log, base, ring, n - 1);
      StillOneMore(sub, log, ring, n - 1);
      var before := PollAll(sub, Still(log, ring, n - 1));
      PollOk(before, log, base, ring);
      LivePollExact(before, log, base, ring);
    }
    if n == ring.tail - sub.next && base + ring.tail == |log.events| {
      DrainedIsComplete(PollAll(sub, Still(log, ring, n)), log, base, ring);
    }
  }

  lemma SubReadable(sub: Sub, log: Log, base: nat, ring: Ring)
    requires Serves(log, base, ring) && SubOk(sub, log, base, ring)
    ensures Readable(log, sub.target) && sub.registered <= sub.next <= ring.tail && base + ring.tail <= |log.events|
  {
    hide Indexed, IndexOf, WellPositioned, Carries, View, Follows, Reach;
    ConsistentReadable(log, sub.target);
  }

  /** What is left to yield behind position `i` of the view. */
  function Left(view: seq<RecordedEvent>, i: nat): nat {
    if i <= |view| then |view| - i else 0
  }

  /** A catch-up under way on a log that does not change. */
  ghost predicate CatchingUp(sub: Sub, view: seq<RecordedEvent>) {
    && Counts(sub, view) && sub.phase == CatchUp && sub.from <= sub.cursor
    && sub.out == Between(view, sub.from, sub.cursor)
    && sub.last == (if sub.cursor == sub.from then None else Some(sub.cursor - 1))
    && sub.cursor + |sub.pending| <= Max(sub.from, |view|)
    && (sub.short ==> sub.cursor + |sub.pending| == Max(sub.from, |view|))
  }

  /** The polls it still takes: one per event, one per read, and one for the seam. */
  function Todo(sub: Sub, view: seq<RecordedEvent>): nat {
    if sub.short then |sub.pending| + 1
    else
      var left := Left(view, sub.cursor + |sub.pending|);
      |sub.pending| + left + left / 500 + 2
  }

  /** The state in which it goes live. */
  ghost predicate CaughtUpWith(sub: Sub, view: seq<RecordedEvent>) {
    && sub.phase == Live && sub.cursor == Max(sub.from, |view|) && sub.fetches == Fetches(view, sub.from)
    && sub.last == (if sub.from < |view| then Some(|view| - 1) else None)
    && sub.out == Messages(if sub.from <= |view| then view[sub.from..] else []) + [CaughtUp]
  }

  lemma YieldStep(sub: Sub, log: Log, ring: Ring)
    requires Appending.Consistent(log) && Readable(log, sub.target)
    requires CatchingUp(sub, View(log.events, sub.target)) && sub.pending != []
    ensures var view, polled := View(log.events, sub.target), Poll(sub, log, ring);
            && CatchingUp(polled, view) && Todo(polled, view) == Todo(sub, view) - 1
            && polled.registered == sub.registered && polled.next == sub.next
  {
    hide Indexed, IndexOf, WellPositioned, View, Readable, ReadBatch, Messages, Fetches, Between;
    var view := View(log.events, sub.target);
    ViewSize(log.events, sub.target);
    ViewKeys(log.events, sub.target, sub.cursor);
    PollCounts(sub, log, ring);
    BetweenStep(view, sub.from, sub.cursor);
    assert sub.pending[0] == view[sub.cursor];
  }

  lemma ReadStep(sub: Sub, log: Log, ring: Ring)
    requires Appending.Consistent(log) && Readable(log, sub.target)
    requires CatchingUp(sub, View(log.events, sub.target)) && sub.pending == [] && !sub.short
    ensures var view, polled := View(log.events, sub.target), Poll(sub, log, ring);
            && CatchingUp(polled, view) && Todo(polled, view) == Todo(sub, view) - 1
            && polled.registered == sub.registered && polled.next == sub.next
  {
    hide Indexed, IndexOf, WellPositioned, View, Readable, ReadBatch, Messages, Fetches, Between, Key;
    PollCounts(sub, log, ring);
    ReadBatchIsWindow(log, sub.target, sub.cursor);
  }

  lemma SeamStep(sub: Sub, log: Log, ring: Ring)
    requires Readable(log, sub.target)
    requires CatchingUp(sub, View(log.events, sub.target)) && sub.pending == [] && sub.short
    ensures var polled := Poll(sub, log, ring);
            && CaughtUpWith(polled, View(log.events, sub.target))
            && polled.registered == sub.registered && polled.next == sub.next
  {
    hide View, Readable, ReadBatch, Messages, Fetches;
    var view := View(log.events, sub.target);
    assert sub.from <= |view| ==> view[sub.from..|view|] == view[sub.from..];
    NoMessages(view, sub.from);
  }

  lemma CatchUpStep(sub: Sub, log: Log, ring: Ring)
    requires Appending.Consistent(log) && CatchingUp(sub, View(log.events, sub.target))
    ensures Readable(log, sub.target)
    ensures var view, polled := View(log.events, sub.target), Poll(sub, log, ring);
            && polled.registered == sub.registered && polled.next == sub.next
            && (Todo(sub, view) > 1 ==> CatchingUp(polled, view) && Todo(polled, view) == Todo(sub, view) - 1)
            && (Todo(sub, view) == 1 ==> CaughtUpWith(polled, view))
  {
    hide Appending.Consistent, CatchingUp, CaughtUpWith, View, Readable, Poll;
    ConsistentReadable(log, sub.target);
    if sub.pending != [] {
      YieldStep(sub, log, ring);
    } else if sub.short {
      SeamStep(sub, log, ring);
    } else {
      ReadStep(sub, log, ring);
    }
  }

  /**
   * A catch-up ends: on a log that does not change, after one poll per event, one per read and one more, the
   * subscription is live and has yielded the whole rest of its log or stream and the seam.
   */
  lemma {:induction false} CatchUpEnds(target: Target, from: u64, log: Log, ring: Ring, n: nat)
    requires Appending.Consistent(log)
    requires n <= Todo(Register(target, from, ring), View(log.events, target))
    ensures AllReadable(Still(log, ring, n), target)
    ensures var first, view := Register(target, from, ring), View(log.events, target);
            var sub := PollAll(first, Still(log, ring, n));
            && sub.next == sub.registered == ring.tail
            && (n < Todo(first, view) ==> CatchingUp(sub, view) && Todo(sub, view) == Todo(first, view) - n)
            && (n == Todo(first, view) ==> CaughtUpWith(sub, view))
    decreases n
  {
    hide Appending.Consistent, CatchingUp, CaughtUpWith, View, Readable, Poll, Todo;
    var first, view := Register(target, from, ring), View(log.events, target);
    ConsistentReadable(log, target);
    if n == 0 {
      CatchUpStarts(target, from, view, ring);
    } else {
      CatchUpEnds(target, from, log, ring, n - 1);
      StillOneMore(first, log, ring, n - 1);
      CatchUpStep(PollAll(first, Still(log, ring, n - 1)), log, ring);
    }
  }

  lemma CatchUpStarts(target: Target, from: u64, view: seq<RecordedEvent>, ring: Ring)
    ensures var first := Register(target, from, ring);
            && CatchingUp(first, view)
            && Todo(first, view) == Left(view, from) + Fetches(view, from) + 1
  {
    NoMessages(view, from);
  }

  // -------------------------------------------------------------------------------- imperative form

  function Between(view: seq<RecordedEvent>, from: nat, to: nat): seq<Message> {
    Messages(if from <= to <= |view| then view[from..to] else [])
  }

  lemma BetweenStep(view: seq<RecordedEvent>, from: nat, to: nat)
    requires from <= to < |view|
    ensures Between(view, from, to + 1) == Between(view, from, to) + [Event(view[to])]
    ensures Between(view, from, from) == []
  {
    assert view[from..to + 1] == view[from..to] + [view[to]];
  }

  /** The inner loop of catch-up: yield the events of one batch. */
  method YieldBatch(log: Log, target: Target, from: u64, start: u64, said: seq<Message>, was: Option<u64>)
    returns (count: nat, out: seq<Message>, cursor: u64, last: Option<u64>)
    requires Appending.Consistent(log) && from <= start
    requires said == Between(View(log.events, target), from, start)
    requires was == (if start == from then None else Some(start - 1))
    ensures var view := View(log.events, target);
            && count == |Window(view, start, CATCHUP_BATCH_SIZE)|
            && cursor == start + count
            && out == Between(view, from, cursor)
            && last == (if cursor == from then None else Some(cursor - 1))
  {
    hide Indexed, IndexOf, WellPositioned, View, ReadBatch, Messages;
    ghost var view := View(log.events, target);
    ViewSize(log.events, target);
    ReadBatchIsWindow(log, target, start);
    var batch := ReadBatch(log, target, start);
    count, out, cursor, last := |batch|, said, start, was;
    for i := 0 to |batch|
      invariant cursor == start + i
      invariant out == Between(view, from, cursor)
      invariant last == (if cursor == from then None else Some(cursor - 1))
    {
      var e := batch[i];
      ViewKeys(log.events, target, cursor);
      BetweenStep(view, from, cursor);
      last := Some(Key(e, target));
      cursor := Key(e, target) + 1;
      out := out + [Event(e)];
    }
  }

  /**
   * The catch-up loop on a quiescent log: it yields the rest of the view and makes one read per full batch and one
   * more.
   */
  method CatchUpLoop(log: Log, target: Target, from: u64)
    returns (out: seq<Message>, cursor: u64, last: Option<u64>, fetches: nat)
    requires Appending.Consistent(log)
    ensures var view := View(log.events, target);
            && out == Messages(if from <= |view| then view[from..] else [])
            && cursor == Max(from, |view|)
            && last == (if from < |view| then Some(|view| - 1) else None)
            && fetches == Fetches(view, from)
  {
    hide Indexed, IndexOf, WellPositioned, View, Messages;
    ghost var view := View(log.events, target);
    out, cursor, last, fetches := [], from, None, 0;
    NoMessages(view, from);
    while true
      invariant from <= cursor <= Max(from, |view|)
      invariant out == Between(view, from, cursor)
      invariant last == (if cursor == from then None else Some(cursor - 1))
      invariant cursor == from + fetches * CATCHUP_BATCH_SIZE
      decreases Max(from, |view|) - cursor
    {
      var count;
      count, out, cursor, last := YieldBatch(log, target, from, cursor, out, last);
      fetches := fetches + 1;
      if count < CATCHUP_BATCH_SIZE {
        break;
      }
    }
    assert from <= |view| ==> view[from..|view|] == view[from..];
  }

  lemma NoMessages(view: seq<RecordedEvent>, from: nat)
    ensures Between(view, from, from) == []
  {}

  /** A running subscription: the generator's local state, updated in place by each poll. */
  class Subscriber {
    var state: Sub

    constructor (target: Target, from: u64, broker: Broker)
      ensures state == Register(target, from, broker.ring)
    {
      var next := broker.Subscribe();
      state := Sub(target, from, from, None, [], false, CatchUp, next, next, 0, 0, []);
    }

    method Next(log: Log, ring: Ring)
      requires Readable(log, state.target)
      modifies this
      ensures state == Poll(old(state), log, ring)
      ensures forall base | Serves(log, base, ring) && old(SubOk(state, log, base, ring)) ::
                SubOk(state, log, base, ring)
    {
      hide Serves, SubOk;
      forall base | Serves(log, base, ring) && SubOk(state, log, base, ring)
        ensures SubOk(Poll(state, log, ring), log, base, ring)
      {
        PollOk(state, log, base, ring);
      }
      match state.phase {
        case CatchUp =>
          if state.pending != [] {
            var e := state.pending[0];
            state := Advance(state, e);
            state := state.(pending := state.pending[1..]);
          } else if state.short {
            state := state.(phase := Live, out := state.out + [CaughtUp]);
          } else {
            var batch := ReadBatch(log, state.target, state.cursor);
            var indexed := if state.fetches == 0 then |View(log.events, state.target)| else state.indexed;
            state := state.(pending := batch, short := |batch| < CATCHUP_BATCH_SIZE, fetches := state.fetches + 1,
                            indexed := indexed);
          }
        case Live =>
          match Receive(ring, state.next) {
            case Nothing =>
            case Closed =>
              state := state.(phase := Ended);
            case Overrun =>
              state := state.(phase := Ended, out := state.out + [LagError]);
            case Got(e) =>
              state := state.(next := state.next + 1);
              if !Wanted(e, state.target) {
                return;
              }
              if state.last.Some? && Key(e, state.target) <= state.last.value {
                return;
              }
              state := state.(out := state.out + [Event(e)]);
          }
        case Ended =>
      }
    }
  }
}
