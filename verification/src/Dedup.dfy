/** The bounded LRU index that answers retried appends. */
module Dedup {
  import opened Types

  /**
   * An LRU cache from event ids to recorded batches: the ids from most to least recently
   * used, and the batch of each. It holds at most `capacity` ids.
   */
  datatype Lru = Lru(capacity: nat, order: seq<Uuid>, batches: map<Uuid, seq<RecordedEvent>>)

  /** A cache access: `LruCache::get` or `LruCache::put`. */
  datatype Access = Get(id: Uuid) | Put(id: Uuid, batch: seq<RecordedEvent>)

  function Empty(capacity: nat): Lru {
    Lru(capacity, [], map[])
  }

  function Remove(order: seq<Uuid>, id: Uuid): seq<Uuid> {
    if order == [] then []
    else if order[0] == id then Remove(order[1..], id)
    else [order[0]] + Remove(order[1..], id)
  }

  function ToFront(order: seq<Uuid>, id: Uuid): seq<Uuid> {
    [id] + Remove(order, id)
  }

  /** The first `n` ids; what remains when the least recently used ones are evicted. */
  function Take(order: seq<Uuid>, n: nat): (r: seq<Uuid>)
    ensures |r| == if |order| <= n then |order| else n
    ensures r <= order
  {
    if order == [] || n == 0 then [] else [order[0]] + Take(order[1..], n - 1)
  }

  function Access1(lru: Lru, access: Access): Lru {
    match access
    case Get(id) =>
      if id in lru.order then lru.(order := ToFront(lru.order, id)) else lru
    case Put(id, batch) =>
      var order := Take(ToFront(lru.order, id), lru.capacity);
      lru.(order := order,
           batches := map k | k in lru.batches[id := batch] && k in order :: lru.batches[id := batch][k])
  }

  function AccessAll(lru: Lru, accesses: seq<Access>): Lru {
    if accesses == [] then lru
    else
      var n := |accesses| - 1;
      Access1(AccessAll(lru, accesses[..n]), accesses[n])
  }

  // ------------------------------------------------------------------ the operations of the index

  /** The entry a check answers with: that of the first proposed id. */
  function Cached(lru: Lru, proposed: seq<ProposedEvent>): Option<seq<RecordedEvent>> {
    if proposed != [] && proposed[0].eventId in lru.order && proposed[0].eventId in lru.batches
    then Some(lru.batches[proposed[0].eventId]) else None
  }

  function CheckAccesses(proposed: seq<ProposedEvent>): seq<Access> {
    if proposed == [] then [] else [Get(proposed[0].eventId)]
  }

  /** `record`: every id of the batch maps to the whole batch. */
  function RecordAccesses(batch: seq<RecordedEvent>): (a: seq<Access>)
    ensures |a| == |batch|
  {
    seq(|batch|, i requires 0 <= i < |batch| => Put(batch[i].eventId, batch))
  }

  /** `seed_from_log`: every event is a batch of its own. */
  function SeedAccesses(events: seq<RecordedEvent>): (a: seq<Access>)
    ensures |a| == |events|
  {
    seq(|events|, i requires 0 <= i < |events| => Put(events[i].eventId, [events[i]]))
  }

  // ----------------------------------------------------------------------- reference definitions

  /** The ids touched by a history on an empty cache: every put, and every get that hit. */
  function Touched(capacity: nat, accesses: seq<Access>): seq<Uuid> {
    if accesses == [] then []
    else
      var n := |accesses| - 1;
      var before := Touched(capacity, accesses[..n]);
      if accesses[n].Put? || accesses[n].id in AccessAll(Empty(capacity), accesses[..n]).order
      then before + [accesses[n].id] else before
  }

  /** The distinct ids touched since `id` was last touched. */
  function Since(touched: seq<Uuid>, id: Uuid): set<Uuid> {
    if touched == [] || touched[|touched| - 1] == id then {}
    else Since(touched[..|touched| - 1], id) + {touched[|touched| - 1]}
  }

  /** The batch most recently put under `id`. */
  function Latest(accesses: seq<Access>, id: Uuid): Option<seq<RecordedEvent>> {
    if accesses == [] then None
    else
      var last := accesses[|accesses| - 1];
      if last.Put? && last.id == id then Some(last.batch) else Latest(accesses[..|accesses| - 1], id)
  }

  /** All touched ids, each once, most recent first. */
  function Recent(touched: seq<Uuid>): seq<Uuid> {
    if touched == [] then []
    else ToFront(Recent(touched[..|touched| - 1]), touched[|touched| - 1])
  }

  function Before(order: seq<Uuid>, id: Uuid): set<Uuid> {
    if order == [] || order[0] == id then {} else {order[0]} + Before(order[1..], id)
  }

  predicate Distinct(order: seq<Uuid>) {
    order == [] || (order[0] !in order[1..] && Distinct(order[1..]))
  }

  // --------------------------------------------------------------------------------- recency lists

  lemma {:induction false} RemoveExact(order: seq<Uuid>, id: Uuid)
    ensures forall k: Uuid :: k in Remove(order, id) <==> k in order && k != id
    ensures Distinct(order) ==> Distinct(Remove(order, id))
    ensures id !in order ==> Remove(order, id) == order
    ensures |Remove(order, id)| <= |order|
  {
    if order != [] {
      RemoveExact(order[1..], id);
      assert order == [order[0]] + order[1..];
    }
  }

  lemma {:induction false} BeforeToFront(order: seq<Uuid>, id: Uuid, k: Uuid)
    requires k != id
    ensures Before(Remove(order, id), k) == Before(order, k) - {id}
    ensures Before(ToFront(order, id), k) == Before(order, k) + {id}
  {
    if order != [] {
      BeforeToFront(order[1..], id, k);
    }
    assert ToFront(order, id)[1..] == Remove(order, id);
  }

  lemma {:induction false} RecentExact(touched: seq<Uuid>, k: Uuid)
    ensures Distinct(Recent(touched))
    ensures k in Recent(touched) <==> k in touched
    ensures Before(Recent(touched), k) == Since(touched, k)
  {
    if touched != [] {
      var n := |touched| - 1;
      var order, last := Recent(touched[..n]), touched[n];
      RecentExact(touched[..n], k);
      RemoveExact(order, last);
      assert touched == touched[..n] + [last];
      if k != last {
        BeforeToFront(order, last, k);
      }
    }
  }

  /** In a list without repetition, an id is among the first `n` exactly when fewer than `n` ids precede it. */
  lemma {:induction false} TakeExact(order: seq<Uuid>, n: nat, k: Uuid)
    requires Distinct(order)
    ensures k in Take(order, n) <==> k in order && |Before(order, k)| < n
    ensures order != [] ==> order[0] !in Before(order[1..], k)
  {
    if order != [] {
      var rest := order[1..];
      BeforeWithin(rest, k);
      if n > 0 {
        TakeExact(rest, n - 1, k);
      }
    }
  }

  lemma {:induction false} BeforeWithin(order: seq<Uuid>, k: Uuid)
    ensures forall x <- Before(order, k) :: x in order
  {
    if order != [] {
      BeforeWithin(order[1..], k);
    }
  }

  /** Dropping all but the first `n` before moving an id to the front changes nothing among the first `n`. */
  lemma {:induction false} TakeToFront(order: seq<Uuid>, n: nat, id: Uuid)
    requires Distinct(order) && n > 0
    ensures Take(ToFront(Take(order, n), id), n) == Take(ToFront(order, id), n)
    ensures id in Take(order, n) ==> ToFront(Take(order, n), id) == Take(ToFront(order, id), n)
  {
    hide Take, Remove;
    RemoveTake(order, n, id);
    TakeCons(id, Remove(order, id), n - 1);
    TakeCons(id, Remove(Take(order, n), id), n - 1);
    if id in Take(order, n) {
      TakeDistinct(order, n);
      RemoveShrinks(Take(order, n), id);
      TakeAll(ToFront(Take(order, n), id), n);
    }
  }

  lemma {:induction false} RemoveShrinks(order: seq<Uuid>, id: Uuid)
    requires Distinct(order) && id in order
    ensures |Remove(order, id)| == |order| - 1
  {
    RemoveExact(order[1..], id);
    if order[0] != id {
      RemoveShrinks(order[1..], id);
    }
  }

  lemma TakeCons(x: Uuid, rest: seq<Uuid>, n: nat)
    ensures Take([x] + rest, n + 1) == [x] + Take(rest, n)
  {
    assert ([x] + rest)[1..] == rest;
  }

  lemma RemoveCons(x: Uuid, rest: seq<Uuid>, id: Uuid)
    ensures Remove([x] + rest, id) == if x == id then Remove(rest, id) else [x] + Remove(rest, id)
  {
    assert ([x] + rest)[1..] == rest;
  }

  lemma {:induction false} RemoveTake(order: seq<Uuid>, n: nat, id: Uuid)
    requires Distinct(order) && n > 0
    ensures Take(Remove(Take(order, n), id), n - 1) == Take(Remove(order, id), n - 1)
  {
    hide Take, Remove;
    if order == [] {
      TakeEmpty(n);
      RemoveExact([], id);
    } else {
      var x, rest := order[0], order[1..];
      var taken := Take(rest, n - 1);
      assert order == [x] + rest;
      TakeCons(x, rest, n - 1);
      RemoveCons(x, rest, id);
      RemoveCons(x, taken, id);
      RemoveExact(rest, id);
      RemoveExact(taken, id);
      if x == id {
        TakeAll(taken, n - 1);
      } else if n > 1 {
        RemoveTake(rest, n - 1, id);
        TakeCons(x, Remove(rest, id), n - 2);
        TakeCons(x, Remove(taken, id), n - 2);
      } else {
        TakeNone(Remove(order, id));
        TakeNone(Remove([x] + taken, id));
      }
    }
  }

  lemma TakeEmpty(n: nat)
    ensures Take([], n) == []
  {}

  lemma TakeNone(order: seq<Uuid>)
    ensures Take(order, 0) == []
  {}

  lemma {:induction false} TakeAll(order: seq<Uuid>, n: nat)
    requires |order| <= n
    ensures Take(order, n) == order
  {
    assert |Take(order, n)| == |order|;
  }

  // ------------------------------------------------------------------------------ whole histories

  lemma {:induction false} LruOrder(capacity: nat, accesses: seq<Access>)
    requires capacity > 0
    ensures var lru := AccessAll(Empty(capacity), accesses);
            lru.capacity == capacity && lru.order == Take(Recent(Touched(capacity, accesses)), capacity)
  {
    hide Take, ToFront;
    if accesses == [] {
      TakeEmpty(capacity);
    } else {
      var n := |accesses| - 1;
      var id := accesses[n].id;
      var lru, touched := AccessAll(Empty(capacity), accesses[..n]), Touched(capacity, accesses[..n]);
      LruOrder(capacity, accesses[..n]);
      RecentExact(touched, id);
      if accesses[n].Put? || id in lru.order {
        TakeToFront(Recent(touched), capacity, id);
        assert (touched + [id])[..|touched|] == touched;
      }
    }
  }

  lemma {:induction false} LruBatches(capacity: nat, accesses: seq<Access>, k: Uuid)
    requires capacity > 0
    ensures var lru := AccessAll(Empty(capacity), accesses);
            && (k in lru.order <==> k in lru.batches)
            && (k in lru.order ==> Latest(accesses, k) == Some(lru.batches[k]))
  {
    hide Take, Remove;
    if accesses != [] {
      var n := |accesses| - 1;
      var id := accesses[n].id;
      var lru := AccessAll(Empty(capacity), accesses[..n]);
      LruBatches(capacity, accesses[..n], k);
      RemoveExact(lru.order, id);
      assert forall x <- Take(ToFront(lru.order, id), lru.capacity) :: x in ToFront(lru.order, id);
    }
  }

  /**
   * The cache holds exactly the `capacity` most recently touched distinct ids: an id is cached when
   * fewer than `capacity` other ids were touched after it, and then maps to its latest batch.
   */
  lemma HoldsMostRecent(capacity: nat, accesses: seq<Access>, k: Uuid)
    requires capacity > 0
    ensures var lru, touched := AccessAll(Empty(capacity), accesses), Touched(capacity, accesses);
            && (k in lru.order <==> k in touched && |Since(touched, k)| < capacity)
            && (k in lru.order <==> k in lru.batches)
            && (k in lru.order ==> Latest(accesses, k) == Some(lru.batches[k]))
            && |lru.order| <= capacity && Distinct(lru.order)
  {
    var touched := Touched(capacity, accesses);
    LruOrder(capacity, accesses);
    LruBatches(capacity, accesses, k);
    RecentExact(touched, k);
    TakeExact(Recent(touched), capacity, k);
    TakeDistinct(Recent(touched), capacity);
  }

  lemma {:induction false} TakeDistinct(order: seq<Uuid>, n: nat)
    requires Distinct(order)
    ensures Distinct(Take(order, n))
  {
    if order != [] && n > 0 {
      TakeDistinct(order[1..], n - 1);
      assert Take(order, n)[1..] == Take(order[1..], n - 1);
    }
  }

  function Ids(events: seq<RecordedEvent>): (ids: seq<Uuid>)
    ensures |ids| == |events|
  {
    seq(|events|, i requires 0 <= i < |events| => events[i].eventId)
  }

  /** The last event of the log with this id. */
  function LatestEvent(events: seq<RecordedEvent>, id: Uuid): Option<RecordedEvent> {
    if events == [] then None
    else if events[|events| - 1].eventId == id then Some(events[|events| - 1])
    else LatestEvent(events[..|events| - 1], id)
  }

  lemma {:induction false} SeedHistory(capacity: nat, events: seq<RecordedEvent>, k: Uuid)
    ensures Touched(capacity, SeedAccesses(events)) == Ids(events)
    ensures Latest(SeedAccesses(events), k)
            == match LatestEvent(events, k) case None => None case Some(e) => Some([e])
  {
    if events != [] {
      var n := |events| - 1;
      SeedHistory(capacity, events[..n], k);
      assert SeedAccesses(events)[..n] == SeedAccesses(events[..n]);
      assert Ids(events) == Ids(events[..n]) + [events[n].eventId];
    }
  }

  /** After seeding, the index holds the last `capacity` distinct ids of the log, each with its latest event alone. */
  lemma SeededExact(capacity: nat, events: seq<RecordedEvent>, k: Uuid)
    requires capacity > 0
    ensures var lru := AccessAll(Empty(capacity), SeedAccesses(events));
            && (k in lru.order <==> k in Ids(events) && |Since(Ids(events), k)| < capacity)
            && (k in lru.order ==>
                && k in lru.batches && LatestEvent(events, k).Some?
                && lru.batches[k] == [LatestEvent(events, k).value])
  {
    SeedHistory(capacity, events, k);
    HoldsMostRecent(capacity, SeedAccesses(events), k);
  }

  lemma {:induction false} LatestConcat(a: seq<Access>, b: seq<Access>, id: Uuid)
    ensures Latest(a + b, id) == if Latest(b, id).Some? then Latest(b, id) else Latest(a, id)
    decreases |b|
  {
    if b == [] {
      assert a + b == a;
    } else {
      assert (a + b)[..|a + b| - 1] == a + b[..|b| - 1];
      LatestConcat(a, b[..|b| - 1], id);
    }
  }

  /** All puts of a history carry this batch, and one is under this id. */
  lemma {:induction false} LatestOfOneBatch(a: seq<Access>, id: Uuid, batch: seq<RecordedEvent>, i: nat)
    requires forall x <- a | x.Put? :: x.batch == batch
    requires i < |a| && a[i] == Put(id, batch)
    ensures Latest(a, id) == Some(batch)
  {
    var n := |a| - 1;
    if i < n {
      assert a[n] in a;
      LatestOfOneBatch(a[..n], id, batch, i);
    }
  }

  lemma {:induction false} StoredIsTouched(capacity: nat, a: seq<Access>, id: Uuid)
    ensures Latest(a, id).Some? ==> id in Touched(capacity, a)
  {
    hide AccessAll;
    if a != [] {
      StoredIsTouched(capacity, a[..|a| - 1], id);
    }
  }

  /** Every id of a recorded batch maps to the whole batch. */
  lemma RecordedLatest(batch: seq<RecordedEvent>, i: nat)
    requires i < |batch|
    ensures Latest(RecordAccesses(batch), batch[i].eventId) == Some(batch)
  {
    LatestOfOneBatch(RecordAccesses(batch), batch[i].eventId, batch, i);
  }

  lemma {:induction false} TouchedPuts(capacity: nat, history: seq<Access>, puts: seq<Access>)
    requires forall a <- puts :: a.Put?
    ensures |Touched(capacity, history + puts)| == |Touched(capacity, history)| + |puts|
    ensures forall i | 0 <= i < |puts| ::
              Touched(capacity, history + puts)[|Touched(capacity, history)| + i] == puts[i].id
    decreases |puts|
  {
    hide AccessAll;
    if puts == [] {
      assert history + puts == history;
    } else {
      var n := |puts| - 1;
      assert puts[n] in puts && forall a <- puts[..n] :: a in puts;
      assert (history + puts)[..|history + puts| - 1] == history + puts[..n];
      TouchedPuts(capacity, history, puts[..n]);
    }
  }

  lemma {:induction false} SinceAtMost(touched: seq<Uuid>, k: nat)
    requires k < |touched|
    ensures |Since(touched, touched[k])| <= |touched| - 1 - k
  {
    var n := |touched| - 1;
    if k < n && touched[n] != touched[k] {
      SinceAtMost(touched[..n], k);
    }
  }

  /**
   * After a batch was recorded, whatever happened before, each of its ids is cached exactly when fewer than `capacity`
   * distinct ids were touched since, with the whole batch; and all of them are when the batch fits the cache.
   */
  lemma RecordedExact(capacity: nat, history: seq<Access>, batch: seq<RecordedEvent>, i: nat)
    requires capacity > 0 && i < |batch|
    ensures var lru := AccessAll(Empty(capacity), history + RecordAccesses(batch));
            var id, touched := batch[i].eventId, Touched(capacity, history + RecordAccesses(batch));
            && (id in lru.order <==> |Since(touched, id)| < capacity)
            && (id in lru.order ==> id in lru.batches && lru.batches[id] == batch)
            && (|batch| - i <= capacity ==> id in lru.order)
  {
    hide AccessAll, Touched, Since, Latest;
    var puts, id := RecordAccesses(batch), batch[i].eventId;
    RecordedLatest(batch, i);
    LatestConcat(history, puts, id);
    StoredIsTouched(capacity, history + puts, id);
    HoldsMostRecent(capacity, history + puts, id);
    TouchedPuts(capacity, history, puts);
    var touched, k := Touched(capacity, history + puts), |Touched(capacity, history)| + i;
    assert touched[k] == puts[i].id == id;
    SinceAtMost(touched, k);
  }

  lemma {:induction false} AccessAllConcat(lru: Lru, a: seq<Access>, b: seq<Access>)
    ensures AccessAll(AccessAll(lru, a), b) == AccessAll(lru, a + b)
    decreases |b|
  {
    hide Access1;
    if b == [] {
      assert a + b == a;
    } else {
      assert (a + b)[..|a + b| - 1] == a + b[..|b| - 1];
      AccessAllConcat(lru, a, b[..|b| - 1]);
    }
  }

  lemma NoAccess(lru: Lru)
    ensures AccessAll(lru, []) == lru
  {}

  // --------------------------------------------------------------------- agreement with the log

  /** `batch` is a run of consecutive log events. */
  predicate LiesIn(batch: seq<RecordedEvent>, events: seq<RecordedEvent>) {
    && batch != []
    && batch[0].globalPosition + |batch| <= |events|
    && batch == events[batch[0].globalPosition..batch[0].globalPosition + |batch|]
  }

  /** `batch` is a run of consecutive log events, one of which has this id. */
  ghost predicate SliceWith(batch: seq<RecordedEvent>, id: Uuid, events: seq<RecordedEvent>) {
    LiesIn(batch, events) && exists e <- batch :: e.eventId == id
  }

  /** No cached answer disagrees with the log. */
  ghost predicate AgreesWith(lru: Lru, events: seq<RecordedEvent>) {
    forall k <- lru.batches :: SliceWith(lru.batches[k], k, events)
  }

  lemma {:induction false} AccessesKeepAgreement(lru: Lru, accesses: seq<Access>, events: seq<RecordedEvent>,
                                                 more: seq<RecordedEvent>)
    requires AgreesWith(lru, events)
    requires forall a <- accesses | a.Put? :: SliceWith(a.batch, a.id, events + more)
    ensures AgreesWith(AccessAll(lru, accesses), events + more)
  {
    if accesses == [] {
      forall k <- lru.batches
        ensures SliceWith(lru.batches[k], k, events + more)
      {
        var b := lru.batches[k];
        var p := b[0].globalPosition;
        assert (events + more)[p..p + |b|] == events[p..p + |b|];
      }
    } else {
      AccessesKeepAgreement(lru, accesses[..|accesses| - 1], events, more);
    }
  }

  lemma RecordedAreSlices(events: seq<RecordedEvent>, batch: seq<RecordedEvent>)
    requires batch != [] ==> batch[0].globalPosition == |events|
    ensures forall a <- RecordAccesses(batch) :: a.Put? && SliceWith(a.batch, a.id, events + batch)
  {
    forall a <- RecordAccesses(batch)
      ensures a.Put? && SliceWith(a.batch, a.id, events + batch)
    {
      assert (events + batch)[|events|..|events| + |batch|] == batch;
      var i :| 0 <= i < |batch| && RecordAccesses(batch)[i] == a;
      assert batch[i] in batch;
    }
  }

  lemma SeededAreSlices(events: seq<RecordedEvent>)
    requires forall i | 0 <= i < |events| :: events[i].globalPosition == i
    ensures forall a <- SeedAccesses(events) :: a.Put? && SliceWith(a.batch, a.id, events)
  {
    forall a <- SeedAccesses(events)
      ensures a.Put? && SliceWith(a.batch, a.id, events)
    {
      var i :| 0 <= i < |events| && SeedAccesses(events)[i] == a;
      assert events[i..i + 1] == [events[i]];
      assert events[i] in a.batch;
    }
  }

  // ------------------------------------------------------------------------------------- the class

  /** `DedupIndex`: the cache is updated in place. */
  class DedupIndex {
    var cache: Lru

    constructor (capacity: nat)
      requires capacity > 0
      ensures cache == Empty(capacity)
    {
      cache := Empty(capacity);
    }

    method Check(proposed: seq<ProposedEvent>) returns (r: Option<seq<RecordedEvent>>)
      modifies this
      ensures r == Cached(old(cache), proposed)
      ensures cache == AccessAll(old(cache), CheckAccesses(proposed))
      ensures r.Some? ==> cache.order != [] && cache.order[0] == proposed[0].eventId
      ensures (forall k: Uuid :: k in cache.order <==> k in old(cache.order)) && cache.batches == old(cache.batches)
      ensures proposed == [] || proposed[0].eventId !in old(cache.order) ==> cache == old(cache)
    {
      if proposed == [] {
        return None;
      }
      var id := proposed[0].eventId;
      r := None;
      if id in cache.order && id in cache.batches {
        r := Some(cache.batches[id]);
      }
      RemoveExact(cache.order, id);
      cache := Access1(cache, Get(id));
      assert CheckAccesses(proposed)[..0] == [];
    }

    method Record(recorded: seq<RecordedEvent>)
      modifies this
      ensures cache == AccessAll(old(cache), RecordAccesses(recorded))
      ensures forall history |
                old(cache) == AccessAll(Empty(old(cache).capacity), history) && old(cache).capacity > 0 ::
                forall i | 0 <= i < |recorded| && |recorded| - i <= old(cache).capacity ::
                  recorded[i].eventId in cache.batches && cache.batches[recorded[i].eventId] == recorded
    {
      ghost var accesses := RecordAccesses(recorded);
      for i := 0 to |recorded|
        invariant cache == AccessAll(old(cache), accesses[..i])
      {
        cache := Access1(cache, Put(recorded[i].eventId, recorded));
        assert accesses[..i + 1][..i] == accesses[..i];
      }
      assert accesses[..|recorded|] == accesses;
      forall history, i | old(cache) == AccessAll(Empty(old(cache).capacity), history) && old(cache).capacity > 0
                          && 0 <= i < |recorded| && |recorded| - i <= old(cache).capacity
        ensures recorded[i].eventId in cache.batches && cache.batches[recorded[i].eventId] == recorded
      {
        AccessAllConcat(Empty(old(cache).capacity), history, accesses);
        RecordedExact(old(cache).capacity, history, recorded, i);
      }
    }

    method SeedFromLog(events: seq<RecordedEvent>)
      modifies this
      ensures cache == AccessAll(old(cache), SeedAccesses(events))
    {
      ghost var accesses := SeedAccesses(events);
      for i := 0 to |events|
        invariant cache == AccessAll(old(cache), accesses[..i])
      {
        cache := Access1(cache, Put(events[i].eventId, [events[i]]));
        assert accesses[..i + 1][..i] == accesses[..i];
      }
      assert accesses[..|events|] == accesses;
    }
  }
}
