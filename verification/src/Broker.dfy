/** The broadcast broker: a lossy ring that keeps the latest messages. */
module Broker {
  import opened Types

  /**
   * A `tokio::broadcast` channel: the latest messages, at most `capacity` of them, and the number of
   * messages ever sent. A receiver is the number of the next message it will see.
   */
  datatype Ring = Ring(capacity: nat, buffer: seq<RecordedEvent>, tail: nat, closed: bool)

  datatype Received = Got(event: RecordedEvent) | Nothing | Overrun | Closed

  function NewRing(capacity: nat): Ring {
    Ring(capacity, [], 0, false)
  }

  function Send(ring: Ring, e: RecordedEvent): Ring {
    var buffer := ring.buffer + [e];
    ring.(buffer := if |buffer| > ring.capacity then buffer[1..] else buffer, tail := ring.tail + 1)
  }

  function SendAll(ring: Ring, events: seq<RecordedEvent>): Ring {
    if events == [] then ring else Send(SendAll(ring, events[..|events| - 1]), events[|events| - 1])
  }

  function Receive(ring: Ring, next: nat): Received {
    if next >= ring.tail then (if ring.closed then Closed else Nothing)
    else if next + |ring.buffer| < ring.tail then Overrun
    else Got(ring.buffer[next + |ring.buffer| - ring.tail])
  }

  /** The ring holds the last `capacity` of the messages sent so far. */
  ghost predicate Carries(ring: Ring, sent: seq<RecordedEvent>) {
    && ring.capacity > 0
    && ring.tail == |sent|
    && |ring.buffer| == (if |sent| < ring.capacity then |sent| else ring.capacity)
    && ring.buffer == sent[|sent| - |ring.buffer|..]
  }

  lemma SendCarries(ring: Ring, sent: seq<RecordedEvent>, e: RecordedEvent)
    requires Carries(ring, sent)
    ensures Carries(Send(ring, e), sent + [e])
  {
    var buffer := ring.buffer + [e];
    assert buffer == (sent + [e])[|sent| - |ring.buffer|..];
    if |buffer| > ring.capacity {
      assert buffer[1..] == (sent + [e])[|sent| + 1 - ring.capacity..];
    }
  }

  lemma {:induction false} SendAllCarries(ring: Ring, sent: seq<RecordedEvent>, events: seq<RecordedEvent>)
    requires Carries(ring, sent)
    ensures Carries(SendAll(ring, events), sent + events)
  {
    hide Carries, Send;
    if events == [] {
      assert sent + events == sent;
    } else {
      var n := |events| - 1;
      SendAllCarries(ring, sent, events[..n]);
      SendCarries(SendAll(ring, events[..n]), sent + events[..n], events[n]);
      assert sent + events == sent + events[..n] + [events[n]];
    }
  }

  /** A receiver gets exactly the next message, unless `capacity` newer ones have overrun it. */
  lemma ReceiveExact(ring: Ring, sent: seq<RecordedEvent>, next: nat)
    requires Carries(ring, sent)
    ensures Receive(ring, next)
            == if next >= |sent| then (if ring.closed then Closed else Nothing)
               else if next + ring.capacity < |sent| then Overrun
               else Got(sent[next])
  {}

  /** When these events are sent, the `i`-th message from `next` on is the `i`-th of them, unless it is overrun. */
  predicate HearsAt(ring: Ring, next: nat, events: seq<RecordedEvent>, i: nat)
    requires i < |events|
  {
    Receive(SendAll(ring, events), next + i) == if i + ring.capacity < |events| then Overrun else Got(events[i])
  }

  predicate Hears(ring: Ring, next: nat, events: seq<RecordedEvent>) {
    forall i | 0 <= i < |events| :: HearsAt(ring, next, events, i)
  }

  /** A receiver registered now gets exactly the events sent from now on. */
  lemma NewReceiver(ring: Ring, sent: seq<RecordedEvent>, events: seq<RecordedEvent>)
    requires Carries(ring, sent)
    ensures Hears(ring, ring.tail, events)
  {
    SendAllCarries(ring, sent, events);
    SameChannel(ring, events);
    forall i | 0 <= i < |events|
      ensures HearsAt(ring, ring.tail, events, i)
    {
      ReceiveExact(SendAll(ring, events), sent + events, ring.tail + i);
    }
  }

  lemma {:induction false} SameChannel(ring: Ring, events: seq<RecordedEvent>)
    ensures SendAll(ring, events).capacity == ring.capacity && SendAll(ring, events).closed == ring.closed
  {
    if events != [] {
      SameChannel(ring, events[..|events| - 1]);
    }
  }

  /** `Broker`: publishing sends each event in order. */
  class Broker {
    var ring: Ring

    constructor (capacity: nat)
      requires capacity > 0
      ensures ring == NewRing(capacity) && Carries(ring, [])
    {
      ring := NewRing(capacity);
    }

    method Publish(events: seq<RecordedEvent>)
      modifies this
      ensures ring == SendAll(old(ring), events)
      ensures forall sent | Carries(old(ring), sent) :: Carries(ring, sent + events)
    {
      for i := 0 to |events|
        invariant ring == SendAll(old(ring), events[..i])
      {
        ring := Send(ring, events[i]);
        assert events[..i + 1][..i] == events[..i];
      }
      assert events[..|events|] == events;
      forall sent | Carries(old(ring), sent)
        ensures Carries(ring, sent + events)
      {
        SendAllCarries(old(ring), sent, events);
      }
    }

    /**
     * A new receiver, as the number of the first message it will see. It gets nothing of what was sent before, and
     * exactly the events published from now on, in order, until more than `capacity` are ahead of it.
     */
    method Subscribe() returns (next: nat)
      ensures next == ring.tail
      ensures Receive(ring, next) == if ring.closed then Closed else Nothing
      ensures forall sent, events | Carries(ring, sent) :: Hears(ring, next, events)
    {
      next := ring.tail;
      forall sent, events | Carries(ring, sent)
        ensures Hears(ring, next, events)
      {
        NewReceiver(ring, sent, events);
      }
    }
  }
}
