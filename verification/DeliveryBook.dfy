/** The bookkeeping of the webhook actor: which updates are loaded, in which
    queue each one waits, which queues may be sent from, and which update each
    connection carries. Every change comes with a proof that it keeps the
    bookkeeping invariant. */
module DeliveryBook {
  import opened UnixClock
  import opened RetryPolicy

  /** The empty event id: of an idle connection, or of an unset offset. */
  const NO_EVENT := 0

  datatype Update = Update(expiresAt: int, lastSendTime: int, wakeupAt: int, backoff: Backoff, queueId: int)

  /** An entry of the time-ordered index of queues that may be sent from. */
  datatype Queue = Queue(wakeupAt: int, id: int)

  datatype Connection = Connection(eventId: int, ipGeneration: int)

  /** `parked` is history: the queues taken out of the index by a send whose
      headers could not be built. */
  datatype Book = Book(
    updates: map<int, Update>,
    queueUpdates: map<int, seq<int>>,
    queues: set<Queue>,
    connections: map<int, Connection>,
    ready: set<int>,
    parked: set<int>)

  const EMPTY := Book(map[], map[], {}, map[], {}, {})

  // ---------- Observations ----------

  /** The index order: by wake-up, then by queue id. */
  predicate NotAfter(a: Queue, b: Queue) {
    a.wakeupAt < b.wakeupAt || (a.wakeupAt == b.wakeupAt && a.id <= b.id)
  }

  predicate IsFirst(queues: set<Queue>, e: Queue) {
    e in queues && forall o | o in queues :: NotAfter(e, o)
  }

  lemma {:induction false} FirstExists(queues: set<Queue>) returns (e: Queue)
    requires queues != {}
    ensures IsFirst(queues, e)
    decreases |queues|
  {
    e :| e in queues;
    if queues != {e} {
      var rest := queues - {e};
      var f := FirstExists(rest);
      assert forall o | o in queues :: o == e || o in rest;
      if NotAfter(f, e) {
        e := f;
      }
    }
  }

  /** Of entries with the same wake-up the one with the least queue id comes first, and
      there is one first entry. */
  lemma FirstIsLeast(queues: set<Queue>, e: Queue, o: Queue)
    requires IsFirst(queues, e) && o in queues
    ensures e.wakeupAt < o.wakeupAt || (e.wakeupAt == o.wakeupAt && (e.id < o.id || e == o))
  {
  }

  predicate IsFront(queueUpdates: map<int, seq<int>>, q: int, id: int) {
    q in queueUpdates && queueUpdates[q] != [] && queueUpdates[q][0] == id
  }

  predicate IsHead(b: Book, id: int) {
    id in b.updates && IsFront(b.queueUpdates, b.updates[id].queueId, id)
  }

  /** The index entry that stands for the queue of update `id`. */
  function Key(updates: map<int, Update>, id: int): Queue
    requires id in updates
  {
    Queue(updates[id].wakeupAt, updates[id].queueId)
  }

  predicate Carries(connections: map<int, Connection>, c: int, id: int) {
    c in connections && connections[c].eventId == id
  }

  ghost predicate InFlight(connections: map<int, Connection>, id: int) {
    id != NO_EVENT && exists c :: Carries(connections, c, id)
  }

  // ---------- The invariant ----------

  ghost predicate Increasing(ids: seq<int>) {
    forall i, j | 0 <= i < j < |ids| :: ids[i] < ids[j]
  }

  ghost predicate QueueHolds(updates: map<int, Update>, q: int, ids: seq<int>) {
    && q != 0 && ids != [] && Increasing(ids)
    && forall k | k in ids :: k in updates && updates[k].queueId == q
  }

  /** Every queue is a non-empty increasing run of loaded updates of its own. */
  ghost predicate QueuesHoldUpdates(b: Book) {
    forall q | q in b.queueUpdates :: QueueHolds(b.updates, q, b.queueUpdates[q])
  }

  predicate Queued(b: Book, id: int) {
    && id in b.updates
    && id != NO_EVENT
    && b.updates[id].backoff.delay >= 1
    && b.updates[id].queueId in b.queueUpdates
    && id in b.queueUpdates[b.updates[id].queueId]
  }

  predicate UpdatesQueued(b: Book) {
    forall id | id in b.updates :: Queued(b, id)
  }

  predicate Keyed(b: Book, e: Queue) {
    && e.id in b.queueUpdates
    && b.queueUpdates[e.id] != []
    && b.queueUpdates[e.id][0] in b.updates
    && e == Key(b.updates, b.queueUpdates[e.id][0])
  }

  /** An index entry carries the wake-up of its queue's head, so no queue has
      two entries. */
  predicate IndexKeyed(b: Book) {
    forall e | e in b.queues :: Keyed(b, e)
  }

  /** What a connection carries is the head of a queue. */
  predicate CarriesHeads(b: Book) {
    forall c | c in b.connections && b.connections[c].eventId != NO_EVENT :: IsHead(b, b.connections[c].eventId)
  }

  /** No update is carried twice; the ready list is the idle connections. */
  ghost predicate CarriedOnce(b: Book) {
    && (forall c, d, id | Carries(b.connections, c, id) && Carries(b.connections, d, id) && id != NO_EVENT :: c == d)
    && (forall c :: c in b.ready <==> Carries(b.connections, c, NO_EVENT))
  }

  /** A queue is in the index, in flight or parked: exactly one of the three. */
  ghost predicate InOnePlace(b: Book, q: int) {
    && q in b.queueUpdates && b.queueUpdates[q] != [] && b.queueUpdates[q][0] in b.updates
    && var head := b.queueUpdates[q][0];
       var indexed, flying, lost := Key(b.updates, head) in b.queues, InFlight(b.connections, head), q in b.parked;
       && (indexed || flying || lost)
       && !(indexed && flying) && !(indexed && lost) && !(flying && lost)
  }

  ghost predicate AllPlaced(b: Book) {
    && b.parked <= b.queueUpdates.Keys
    && forall q | q in b.queueUpdates :: InOnePlace(b, q)
  }

  ghost predicate Consistent(b: Book) {
    && QueuesHoldUpdates(b)
    && UpdatesQueued(b)
    && IndexKeyed(b)
    && CarriesHeads(b)
    && CarriedOnce(b)
    && AllPlaced(b)
  }

  lemma EmptyConsistent()
    ensures Consistent(EMPTY)
  {
  }

  // ---------- Loading ----------

  function Waiting(b: Book, q: int): seq<int> {
    if q in b.queueUpdates then b.queueUpdates[q] else []
  }

  function Add(b: Book, id: int, u: Update): Book {
    b.(updates := b.updates[id := u],
       queueUpdates := b.queueUpdates[u.queueId := Waiting(b, u.queueId) + [id]],
       queues := if Waiting(b, u.queueId) == [] then b.queues + {Queue(u.wakeupAt, u.queueId)} else b.queues)
  }

  /** An id above all loaded ones may be added at the end of any queue. */
  ghost predicate Addable(b: Book, id: int, u: Update) {
    && id > NO_EVENT && u.queueId != 0 && u.backoff.delay >= 1
    && forall k | k in b.updates :: k < id
  }

  lemma AddKeepsQueues(b: Book, id: int, u: Update)
    requires QueuesHoldUpdates(b) && UpdatesQueued(b) && Addable(b, id, u)
    ensures QueuesHoldUpdates(Add(b, id, u)) && UpdatesQueued(Add(b, id, u))
  {
    var b' := Add(b, id, u);
    forall q | q in b'.queueUpdates
      ensures QueueHolds(b'.updates, q, b'.queueUpdates[q])
    {
      if q in b.queueUpdates {
        var ids := b.queueUpdates[q];
        assert QueueHolds(b.updates, q, ids);
        assert forall i | 0 <= i < |ids| :: ids[i] in ids;
      }
    }
    forall k | k in b'.updates
      ensures Queued(b', k)
    {
      if k == id {
        assert b'.queueUpdates[u.queueId][|b'.queueUpdates[u.queueId]| - 1] == id;
      } else {
        assert Queued(b, k);
      }
    }
  }

  lemma AddKeepsIndex(b: Book, id: int, u: Update)
    requires QueuesHoldUpdates(b) && IndexKeyed(b) && Addable(b, id, u)
    ensures IndexKeyed(Add(b, id, u))
  {
    var b' := Add(b, id, u);
    assert forall q | q in b.queueUpdates :: QueueHolds(b.updates, q, b.queueUpdates[q]);
    forall e | e in b'.queues
      ensures Keyed(b', e)
    {
      if e in b.queues {
        assert Keyed(b, e);
      }
    }
  }

  lemma AddKeepsPlaces(b: Book, id: int, u: Update)
    requires QueuesHoldUpdates(b) && IndexKeyed(b) && CarriesHeads(b) && AllPlaced(b) && Addable(b, id, u)
    ensures CarriesHeads(Add(b, id, u)) && AllPlaced(Add(b, id, u))
  {
    var b' := Add(b, id, u);
    forall q | q in b'.queueUpdates
      ensures InOnePlace(b', q)
    {
      if q in b.queueUpdates {
        assert InOnePlace(b, q);
      } else {
        assert !exists c :: Carries(b.connections, c, id);
        assert forall e | e in b.queues :: Keyed(b, e);
      }
    }
  }

  lemma AddKeepsConsistent(b: Book, id: int, u: Update)
    requires Consistent(b) && Addable(b, id, u)
    ensures Consistent(Add(b, id, u))
  {
    AddKeepsQueues(b, id, u);
    AddKeepsIndex(b, id, u);
    AddKeepsPlaces(b, id, u);
  }

  lemma AddGrowsByOne(b: Book, id: int, u: Update)
    ensures |Add(b, id, u).queueUpdates| <= |b.queueUpdates| + 1
  {
    assert Add(b, id, u).queueUpdates.Keys == b.queueUpdates.Keys + {u.queueId};
  }

  // ---------- Connections ----------

  function Open(b: Book, c: int, ipGeneration: int): Book {
    b.(connections := b.connections[c := Connection(NO_EVENT, ipGeneration)], ready := b.ready + {c})
  }

  function Close(b: Book, c: int): Book {
    b.(connections := b.connections - {c}, ready := b.ready - {c})
  }

  /** Opening or closing an idle connection moves no update. */
  lemma IdleChangeKeepsConsistent(b: Book, b': Book, c: int)
    requires Consistent(b)
    requires (c !in b.connections && exists g :: b' == Open(b, c, g)) || (c in b.ready && b' == Close(b, c))
    ensures Consistent(b')
  {
    hide QueuesHoldUpdates, UpdatesQueued, IndexKeyed;
    assert c !in b.connections || Carries(b.connections, c, NO_EVENT);
    assert forall d, id | id != NO_EVENT :: Carries(b'.connections, d, id) <==> Carries(b.connections, d, id);
    SameQueues(b, b');
    forall q | q in b'.queueUpdates
      ensures InOnePlace(b', q)
    {
      assert InOnePlace(b, q);
    }
  }

  lemma SameQueues(b: Book, b': Book)
    requires b'.updates == b.updates && b'.queueUpdates == b.queueUpdates && b'.queues == b.queues
    requires QueuesHoldUpdates(b) && UpdatesQueued(b) && IndexKeyed(b)
    ensures QueuesHoldUpdates(b') && UpdatesQueued(b') && IndexKeyed(b')
  {
    forall k | k in b'.updates
      ensures Queued(b', k)
    {
      assert Queued(b, k);
    }
    forall e | e in b'.queues
      ensures Keyed(b', e)
    {
      assert Keyed(b, e);
    }
  }

  // ---------- Sending ----------

  /** Take the head `id` of its queue out of the index; the send time is noted
      even when the request is not written in the end. */
  function Take(b: Book, id: int, now: int): Book
    requires id in b.updates
  {
    b.(queues := b.queues - {Key(b.updates, id)}, updates := b.updates[id := b.updates[id].(lastSendTime := now)])
  }

  function Send(b: Book, c: int, id: int, now: int): Book
    requires id in b.updates && c in b.connections
  {
    Take(b, id, now).(connections := b.connections[c := b.connections[c].(eventId := id)], ready := b.ready - {c})
  }

  function Park(b: Book, id: int, now: int): Book
    requires id in b.updates
  {
    Take(b, id, now).(parked := b.parked + {b.updates[id].queueId})
  }

  /** The head of a queue that is in the index. */
  predicate Indexed(b: Book, id: int) {
    IsHead(b, id) && Key(b.updates, id) in b.queues
  }

  lemma TakeKeepsQueues(b: Book, id: int, now: int)
    requires Consistent(b) && Indexed(b, id)
    ensures var b' := Take(b, id, now);
      QueuesHoldUpdates(b') && UpdatesQueued(b') && IndexKeyed(b') && CarriesHeads(b') && Key(b.updates, id) !in b'.queues
    ensures b.updates[id].queueId !in b.parked && !InFlight(b.connections, id) && id != NO_EVENT
  {
    var b' := Take(b, id, now);
    assert InOnePlace(b, b.updates[id].queueId);
    assert Queued(b, id);
    UpdateInPlace(b, b', id);
    forall e | e in b'.queues
      ensures Keyed(b', e)
    {
      assert Keyed(b, e);
    }
  }

  /** Changing an update in place, whatever its send time, wake-up and backoff
      become, leaves the queues as they are. */
  lemma UpdateInPlace(b: Book, b': Book, id: int)
    requires QueuesHoldUpdates(b) && UpdatesQueued(b) && CarriesHeads(b) && id in b.updates
    requires b'.queueUpdates == b.queueUpdates && b'.connections == b.connections
    requires id in b'.updates && b'.updates == b.updates[id := b'.updates[id]]
    requires b'.updates[id].queueId == b.updates[id].queueId && b'.updates[id].backoff.delay >= 1
    ensures QueuesHoldUpdates(b') && UpdatesQueued(b') && CarriesHeads(b')
  {
    forall q | q in b'.queueUpdates
      ensures QueueHolds(b'.updates, q, b'.queueUpdates[q])
    {
      assert QueueHolds(b.updates, q, b.queueUpdates[q]);
    }
    forall k | k in b'.updates
      ensures Queued(b', k)
    {
      assert Queued(b, k);
    }
  }

  lemma SendKeepsConsistent(b: Book, c: int, id: int, now: int)
    requires Consistent(b) && Indexed(b, id) && c in b.ready && c in b.connections
    ensures Consistent(Send(b, c, id, now))
  {
    hide QueuesHoldUpdates, UpdatesQueued, IndexKeyed;
    TakeKeepsQueues(b, id, now);
    var b' := Send(b, c, id, now);
    SameQueues(Take(b, id, now), b');
    assert Carries(b.connections, c, NO_EVENT);
    assert Carries(b'.connections, c, id);
    assert forall d :: !Carries(b.connections, d, id);
    assert forall d, k | d != c :: Carries(b'.connections, d, k) <==> Carries(b.connections, d, k);
    forall q | q in b'.queueUpdates
      ensures InOnePlace(b', q)
    {
      assert InOnePlace(b, q);
      HeadsDiffer(b, q, id);
    }
  }

  /** Only the queue of `id` has `id` as its head. */
  lemma HeadsDiffer(b: Book, q: int, id: int)
    requires QueuesHoldUpdates(b) && IsHead(b, id) && q in b.queueUpdates
    ensures b.queueUpdates[q] != [] && b.queueUpdates[q][0] in b.updates
    ensures b.updates[b.queueUpdates[q][0]].queueId == q
    ensures b.queueUpdates[q][0] == id <==> q == b.updates[id].queueId
  {
    assert QueueHolds(b.updates, q, b.queueUpdates[q]);
    assert b.queueUpdates[q][0] in b.queueUpdates[q];
  }

  lemma ParkKeepsConsistent(b: Book, id: int, now: int)
    requires Consistent(b) && Indexed(b, id)
    ensures Consistent(Park(b, id, now))
  {
    hide QueuesHoldUpdates, UpdatesQueued, IndexKeyed;
    TakeKeepsQueues(b, id, now);
    var b' := Park(b, id, now);
    SameQueues(Take(b, id, now), b');
    forall q | q in b'.queueUpdates
      ensures InOnePlace(b', q)
    {
      assert InOnePlace(b, q);
      HeadsDiffer(b, q, id);
    }
  }

  // ---------- Responses ----------

  function Release(b: Book, c: int, keep: bool): Book
    requires c in b.connections
  {
    if keep then
      b.(connections := b.connections[c := b.connections[c].(eventId := NO_EVENT)], ready := b.ready + {c})
    else
      b.(connections := b.connections - {c})
  }

  /** Forget the head `id` of its queue and let its successor into the index. */
  function Drop(b: Book, id: int): Book
    requires id in b.updates
  {
    var q := b.updates[id].queueId;
    var rest := if Waiting(b, q) == [] then [] else Waiting(b, q)[1..];
    b.(updates := b.updates - {id},
       queueUpdates := if rest == [] then b.queueUpdates - {q} else b.queueUpdates[q := rest],
       queues := if rest == [] || rest[0] !in b.updates then b.queues else b.queues + {Key(b.updates, rest[0])})
  }

  function Delayed(u: Update, f: Failure, now: int): Update {
    u.(backoff := AfterFailure(u.backoff, f), wakeupAt := now + EffectiveDelay(u.backoff, f) * NANOS)
  }

  /** Put the head `id` of its queue back into the index after a failure. */
  function Delay(b: Book, id: int, f: Failure, now: int): Book
    requires id in b.updates
  {
    var u := Delayed(b.updates[id], f, now);
    b.(updates := b.updates[id := u], queues := b.queues + {Queue(u.wakeupAt, u.queueId)})
  }

  /** A carried update is the head of a queue that is neither in the index nor
      parked, and one connection carries it. */
  lemma CarriedAlone(b: Book, c: int, id: int)
    requires Consistent(b) && Carries(b.connections, c, id) && id != NO_EVENT
    ensures IsHead(b, id) && b.updates[id].queueId !in b.parked && c !in b.ready
    ensures forall e | e in b.queues :: e.id != b.updates[id].queueId
    ensures forall d | d != c :: !Carries(b.connections, d, id)
  {
    var q := b.updates[id].queueId;
    assert InFlight(b.connections, id);
    assert InOnePlace(b, q);
    forall e | e in b.queues
      ensures e.id != q
    {
      assert Keyed(b, e);
    }
  }

  /** The queue of a dropped head keeps the rest of its updates. */
  lemma DropKeepsQueues(b: Book, id: int)
    requires QueuesHoldUpdates(b) && UpdatesQueued(b) && IsHead(b, id)
    ensures QueuesHoldUpdates(Drop(b, id)) && UpdatesQueued(Drop(b, id))
  {
    var b', q := Drop(b, id), b.updates[id].queueId;
    var ids := b.queueUpdates[q];
    assert QueueHolds(b.updates, q, ids);
    assert forall k | k in ids[1..] :: k in ids && k != id;
    forall p | p in b'.queueUpdates
      ensures QueueHolds(b'.updates, p, b'.queueUpdates[p])
    {
      assert QueueHolds(b.updates, p, b.queueUpdates[p]);
    }
    forall k | k in b'.updates
      ensures Queued(b', k)
    {
      assert Queued(b, k);
      assert k in ids ==> k in ids[1..];
    }
  }

  lemma DropKeepsIndex(b: Book, id: int)
    requires QueuesHoldUpdates(b) && IndexKeyed(b) && IsHead(b, id)
    requires forall e | e in b.queues :: e.id != b.updates[id].queueId
    ensures IndexKeyed(Drop(b, id))
  {
    var b', q := Drop(b, id), b.updates[id].queueId;
    forall e | e in b'.queues
      ensures Keyed(b', e)
    {
      if e in b.queues {
        assert Keyed(b, e);
        HeadsDiffer(b, e.id, id);
      } else {
        assert e.id == q by { HeadStays(b, id, q); }
        HeadStays(b, id, q);
      }
    }
  }

  /** Letting go of the connection that carries `id` changes nothing for the
      other connections. */
  lemma ReleaseCarries(b: Book, c: int, id: int, keep: bool)
    requires CarriedOnce(b) && Carries(b.connections, c, id) && id != NO_EVENT
    ensures CarriedOnce(Release(b, c, keep))
    ensures forall k | k != NO_EVENT && k != id ::
              InFlight(Release(b, c, keep).connections, k) <==> InFlight(b.connections, k)
    ensures !InFlight(Release(b, c, keep).connections, id)
  {
    var cs := Release(b, c, keep).connections;
    assert forall d, k | d != c :: Carries(cs, d, k) <==> Carries(b.connections, d, k);
    assert forall k | k != NO_EVENT :: !Carries(cs, c, k);
    assert c !in b.ready;
  }

  /** A response that finishes the carried update. */
  lemma FinishKeepsConsistent(b: Book, c: int, id: int, keep: bool)
    requires Consistent(b) && Carries(b.connections, c, id) && id != NO_EVENT
    ensures IsHead(b, id) && Consistent(Release(Drop(b, id), c, keep))
  {
    CarriedAlone(b, c, id);
    DropKeepsQueues(b, id);
    DropKeepsIndex(b, id);
    ReleaseCarries(Drop(b, id), c, id, keep);
    FinishKeepsHeads(b, c, id, keep);
    FinishKeepsPlaces(b, c, id, keep);
    ReleaseKeepsQueues(Drop(b, id), c, keep);
  }

  lemma ReleaseKeepsQueues(b: Book, c: int, keep: bool)
    requires QueuesHoldUpdates(b) && UpdatesQueued(b) && IndexKeyed(b) && c in b.connections
    ensures var b' := Release(b, c, keep); QueuesHoldUpdates(b') && UpdatesQueued(b') && IndexKeyed(b')
  {
    var b' := Release(b, c, keep);
    assert forall k | k in b.updates :: Queued(b, k) ==> Queued(b', k);
    assert forall e | e in b.queues :: Keyed(b, e) ==> Keyed(b', e);
  }

  lemma FinishKeepsPlaces(b: Book, c: int, id: int, keep: bool)
    requires Consistent(b) && Carries(b.connections, c, id) && id != NO_EVENT && IsHead(b, id)
    ensures AllPlaced(Release(Drop(b, id), c, keep))
  {
    CarriedAlone(b, c, id);
    ReleaseCarries(b, c, id, keep);
    var b' := Release(Drop(b, id), c, keep);
    assert b'.connections == Release(b, c, keep).connections;
    forall p | p in b'.queueUpdates
      ensures InOnePlace(b', p)
    {
      assert InOnePlace(b, p);
      HeadStays(b, id, p);
      var head := b'.queueUpdates[p][0];
      if p == b.updates[id].queueId {
        assert forall d :: Carries(b.connections, d, head) ==> IsHead(b, head) || head == NO_EVENT;
        assert QueueHolds(b.updates, p, b.queueUpdates[p]);
        assert !InFlight(b.connections, head);
      } else {
        HeadsDiffer(b, p, id);
      }
    }
  }

  lemma FinishKeepsHeads(b: Book, c: int, id: int, keep: bool)
    requires QueuesHoldUpdates(b) && CarriesHeads(b) && CarriedOnce(b)
    requires Carries(b.connections, c, id) && id != NO_EVENT && IsHead(b, id)
    ensures CarriesHeads(Release(Drop(b, id), c, keep))
  {
    var b' := Release(Drop(b, id), c, keep);
    forall d | d in b'.connections && b'.connections[d].eventId != NO_EVENT
      ensures IsHead(b', b'.connections[d].eventId)
    {
      var k := b'.connections[d].eventId;
      assert Carries(b.connections, d, k) && d != c;
      HeadsDiffer(b, b.updates[k].queueId, id);
    }
  }

  /** Dropping a head changes the place of its own queue only. */
  lemma HeadStays(b: Book, id: int, p: int)
    requires QueuesHoldUpdates(b) && IsHead(b, id) && p in Drop(b, id).queueUpdates
    requires forall e | e in b.queues :: e.id != b.updates[id].queueId
    ensures var b', q := Drop(b, id), b.updates[id].queueId;
      && b'.queueUpdates[p] != [] && b'.queueUpdates[p][0] in b'.updates
      && Key(b'.updates, b'.queueUpdates[p][0]).id == p
      && (p != q ==> b'.queueUpdates[p] == b.queueUpdates[p]
                     && (Key(b.updates, b.queueUpdates[p][0]) in b.queues
                         <==> Key(b'.updates, b.queueUpdates[p][0]) in b'.queues))
      && (p == q ==> b'.queueUpdates[p][0] in b.queueUpdates[p] && b'.queueUpdates[p][0] != id
                     && Key(b'.updates, b'.queueUpdates[p][0]) in b'.queues)
  {
    var q := b.updates[id].queueId;
    HeadsDiffer(b, p, id);
    var ids := b.queueUpdates[p];
    assert QueueHolds(b.updates, p, ids);
    if p == q {
      assert ids[1..][0] in ids && ids[1] != ids[0];
    } else if b.queueUpdates[q][1..] != [] {
      assert QueueHolds(b.updates, q, b.queueUpdates[q]);
      assert b.queueUpdates[q][1] in b.queueUpdates[q];
    }
  }

  lemma DelayKeepsQueues(b: Book, c: int, id: int, f: Failure, now: int)
    requires Drawable(f) && Consistent(b) && Carries(b.connections, c, id) && id != NO_EVENT
    ensures IsHead(b, id)
    ensures var b' := Delay(b, id, f, now);
      QueuesHoldUpdates(b') && UpdatesQueued(b') && IndexKeyed(b') && CarriesHeads(b')
  {
    hide AllPlaced, CarriedOnce;
    CarriedAlone(b, c, id);
    var b' := Delay(b, id, f, now);
    assert Queued(b, id);
    UpdateInPlace(b, b', id);
    forall e | e in b'.queues
      ensures Keyed(b', e)
    {
      if e in b.queues {
        assert Keyed(b, e);
        HeadsDiffer(b, e.id, id);
      }
    }
  }

  /** A response that puts the carried update back into the index. */
  lemma RetryKeepsConsistent(b: Book, c: int, id: int, f: Failure, now: int, keep: bool)
    requires Drawable(f) && Consistent(b) && Carries(b.connections, c, id) && id != NO_EVENT
    ensures IsHead(b, id) && Consistent(Release(Delay(b, id, f, now), c, keep))
  {
    hide QueuesHoldUpdates, UpdatesQueued, IndexKeyed;
    CarriedAlone(b, c, id);
    DelayKeepsQueues(b, c, id, f, now);
    var b1 := Delay(b, id, f, now);
    var b' := Release(b1, c, keep);
    SameQueues(b1, b');
    assert forall d, k | d != c :: Carries(b'.connections, d, k) <==> Carries(b.connections, d, k);
    assert forall k | k != NO_EVENT :: !Carries(b'.connections, c, k);
    forall p | p in b'.queueUpdates
      ensures InOnePlace(b', p)
    {
      assert InOnePlace(b, p);
      HeadsDiffer(b, p, id);
    }
  }
}
