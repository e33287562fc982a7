/** The counts of the delivery book, and the "pending updates" figure that the
    actor logs. */
module Counting {
  import opened FiniteSets
  import opened DeliveryBook

  /** The number of updates waiting in the queues `qs`. */
  ghost function WaitingIn(b: Book, qs: set<int>): nat
    decreases |qs|
  {
    if qs == {} then 0
    else var q := Pick(qs); |Waiting(b, q)| + WaitingIn(b, qs - {q})
  }

  function Members(ids: seq<int>): set<int> {
    set k | k in ids
  }

  lemma {:induction false} DistinctSize(ids: seq<int>)
    requires Increasing(ids)
    ensures |Members(ids)| == |ids|
  {
    if ids != [] {
      var rest := ids[..|ids| - 1];
      DistinctSize(rest);
      assert Members(ids) == Members(rest) + {ids[|ids| - 1]};
    }
  }

  ghost function UpdatesOf(b: Book, qs: set<int>): set<int> {
    set id | id in b.updates && b.updates[id].queueId in qs
  }

  lemma UpdatesOfOne(b: Book, q: int)
    requires QueuesHoldUpdates(b) && UpdatesQueued(b) && q in b.queueUpdates
    ensures |UpdatesOf(b, {q})| == |Waiting(b, q)|
  {
    var mine := Members(b.queueUpdates[q]);
    assert QueueHolds(b.updates, q, b.queueUpdates[q]);
    DistinctSize(b.queueUpdates[q]);
    forall id | id in UpdatesOf(b, {q}) ensures id in mine { assert Queued(b, id); }
    assert UpdatesOf(b, {q}) == mine;
  }

  lemma {:induction false} UpdatesOfQueues(b: Book, qs: set<int>)
    requires QueuesHoldUpdates(b) && UpdatesQueued(b) && qs <= b.queueUpdates.Keys
    ensures |UpdatesOf(b, qs)| == WaitingIn(b, qs)
    decreases |qs|
  {
    hide QueuesHoldUpdates, UpdatesQueued;
    if qs == {} {
      assert UpdatesOf(b, qs) == {};
    } else {
      var q := Pick(qs);
      UpdatesOfOne(b, q);
      UpdatesOfQueues(b, qs - {q});
      assert UpdatesOf(b, qs) == UpdatesOf(b, {q}) + UpdatesOf(b, qs - {q});
      assert UpdatesOf(b, {q}) !! UpdatesOf(b, qs - {q});
    }
  }

  function Busy(b: Book): set<int> { b.connections.Keys - b.ready }

  /** The queue whose head the connection carries. */
  function CarriedQueue(b: Book, c: int): int {
    if c in b.connections && b.connections[c].eventId in b.updates
    then b.updates[b.connections[c].eventId].queueId else 0
  }

  ghost function Flying(b: Book): set<int> {
    set q | q in b.queueUpdates && b.queueUpdates[q] != [] && InFlight(b.connections, b.queueUpdates[q][0])
  }

  ghost function IndexedIds(b: Book): set<int> {
    set e | e in b.queues :: e.id
  }

  lemma BusyCarriesQueue(b: Book, c: int)
    requires Consistent(b) && c in Busy(b)
    ensures CarriedQueue(b, c) in Flying(b)
    ensures b.connections[c].eventId != NO_EVENT
    ensures b.queueUpdates[CarriedQueue(b, c)][0] == b.connections[c].eventId
  {
    hide QueuesHoldUpdates, UpdatesQueued, IndexKeyed, AllPlaced;
    assert Carries(b.connections, c, b.connections[c].eventId);
  }

  lemma FlyingIsCarried(b: Book, q: int) returns (c: int)
    requires Consistent(b) && q in Flying(b)
    ensures c in Busy(b) && CarriedQueue(b, c) == q
  {
    hide UpdatesQueued, IndexKeyed, AllPlaced;
    var head := b.queueUpdates[q][0];
    c :| Carries(b.connections, c, head);
    assert c in Busy(b) && IsHead(b, head);
    assert QueueHolds(b.updates, q, b.queueUpdates[q]) && head in b.queueUpdates[q];
  }

  lemma FlyingQueues(b: Book)
    requires Consistent(b)
    ensures |Flying(b)| == |Busy(b)|
  {
    hide Consistent, CarriedQueue, Flying;
    var f := c => CarriedQueue(b, c);
    var image := Image(Busy(b), f);
    forall c | c in Busy(b) ensures f(c) in Flying(b) { BusyCarriesQueue(b, c); }
    forall q | q in Flying(b) ensures q in image { var c := FlyingIsCarried(b, q); assert f(c) == q; }
    assert image == Flying(b);
    forall c, d | c in Busy(b) && d in Busy(b) && c != d
      ensures f(c) != f(d)
    {
      BusyCarriesQueue(b, c);
      BusyCarriesQueue(b, d);
      CarriersDiffer(b, c, d);
    }
    ImageSize(Busy(b), f);
  }

  lemma CarriersDiffer(b: Book, c: int, d: int)
    requires Consistent(b) && c in Busy(b) && d in Busy(b) && c != d
    ensures b.connections[c].eventId != b.connections[d].eventId
  {
    hide QueuesHoldUpdates, UpdatesQueued, IndexKeyed, AllPlaced;
    assert Carries(b.connections, c, b.connections[c].eventId);
    assert Carries(b.connections, d, b.connections[d].eventId);
  }

  lemma IndexedQueues(b: Book)
    requires IndexKeyed(b)
    ensures |IndexedIds(b)| == |b.queues|
  {
    var f := (e: Queue) => e.id;
    assert forall e | e in b.queues :: Keyed(b, e);
    ImageSize(b.queues, f);
    assert IndexedIds(b) == Image(b.queues, f);
  }

  lemma PlaceOf(b: Book, q: int)
    requires Consistent(b) && q in b.queueUpdates
    ensures q in IndexedIds(b) + Flying(b) + b.parked
    ensures !(q in IndexedIds(b) && q in Flying(b)) && !(q in IndexedIds(b) && q in b.parked)
    ensures !(q in Flying(b) && q in b.parked)
  {
    hide UpdatesQueued, CarriesHeads, CarriedOnce;
    assert InOnePlace(b, q);
    var head := b.queueUpdates[q][0];
    assert QueueHolds(b.updates, q, b.queueUpdates[q]) && head in b.queueUpdates[q];
    assert Key(b.updates, head).id == q;
    forall e | e in b.queues && e.id == q ensures e == Key(b.updates, head) { assert Keyed(b, e); }
  }

  lemma QueuesPartitioned(b: Book)
    requires Consistent(b)
    ensures |b.queueUpdates| == |IndexedIds(b)| + |Flying(b)| + |b.parked|
  {
    forall e | e in b.queues ensures e.id in b.queueUpdates { assert Keyed(b, e); }
    assert b.parked <= b.queueUpdates.Keys;
    hide Consistent;
    var indexed, flying := IndexedIds(b), Flying(b);
    forall q | q in b.queueUpdates
      ensures q in indexed + flying + b.parked
      ensures !(q in indexed && q in flying) && !(q in indexed && q in b.parked) && !(q in flying && q in b.parked)
    {
      PlaceOf(b, q);
    }
    assert b.queueUpdates.Keys == indexed + flying + b.parked;
    assert indexed !! flying && (indexed + flying) !! b.parked;
    assert |indexed + flying| == |indexed| + |flying|;
  }

  lemma ReadyIsIdle(b: Book)
    requires CarriedOnce(b)
    ensures |b.connections| == |Busy(b)| + |b.ready|
  {
    forall c | c in b.ready ensures c in b.connections.Keys { assert Carries(b.connections, c, NO_EVENT); }
    assert b.connections.Keys == Busy(b) + b.ready && Busy(b) !! b.ready;
    assert |b.connections| == |b.connections.Keys|;
  }

  lemma UpdatesAreWaiting(b: Book)
    requires QueuesHoldUpdates(b) && UpdatesQueued(b)
    ensures |b.updates| == WaitingIn(b, b.queueUpdates.Keys)
  {
    UpdatesOfQueues(b, b.queueUpdates.Keys);
    forall id | id in b.updates ensures b.updates[id].queueId in b.queueUpdates { assert Queued(b, id); }
    assert b.updates.Keys == UpdatesOf(b, b.queueUpdates.Keys);
  }

  /** The loaded updates are those waiting in the queues, and the queues not in
      the index are those of the busy connections and the parked ones. So the
      logged figure counts the loaded updates that are neither in flight nor at
      the head of a parked queue. */
  lemma PendingFigure(b: Book)
    requires Consistent(b)
    ensures |b.updates| == WaitingIn(b, b.queueUpdates.Keys)
    ensures |b.queueUpdates| == |b.queues| + |b.parked| + (|b.connections| - |b.ready|)
    ensures |b.queues| + |b.updates| - |b.queueUpdates| == |b.updates| - |Busy(b)| - |b.parked|
  {
    UpdatesAreWaiting(b);
    IndexedQueues(b);
    FlyingQueues(b);
    QueuesPartitioned(b);
    ReadyIsIdle(b);
  }
}
