/** The order in which queues are served, and what a failed header build costs. */
module Fairness {
  import opened FiniteSets
  import opened RetryPolicy
  import opened DeliveryBook
  import opened Scheduler
  import opened SchedulerRuns
  import opened DeliveryGuarantees

  // ---------- Bounded overtaking ----------

  /** The loaded updates that may still be sent at or before wake-up `w`. */
  ghost function Ahead(b: Book, w: int): set<int> {
    set id | id in b.updates && b.updates[id].wakeupAt <= w
             && !InFlight(b.connections, id) && b.updates[id].queueId !in b.parked
  }

  predicate Dispatches(e: Step) { e.Sent? || e.Parked? }

  function DispatchesIn(tr: seq<Step>): nat {
    if tr == [] then 0 else DispatchesIn(Front(tr)) + if Dispatches(Last(tr)) then 1 else 0
  }

  /** No step of the run dispatches update `id`. */
  predicate Waits(tr: seq<Step>, id: int) {
    forall e | e in tr :: !(Dispatches(e) && e.id == id)
  }

  /** An entry of the index is where it is and nowhere else. */
  lemma IndexedAlone(b: Book, id: int)
    requires Consistent(b) && Indexed(b, id)
    ensures id != NO_EVENT && !InFlight(b.connections, id) && b.updates[id].queueId !in b.parked
  {
    TakeKeepsQueues(b, id, 0);
  }

  lemma FinishKeepsIndexed(s: State, conn: int, k: int, keep: bool, id: int)
    requires Inv(s) && Carried(s, conn, k) && Indexed(s.book, id)
    ensures IsHead(s.book, k) && Indexed(Finish(s, conn, k, keep).book, id)
  {
    hide LoaderInv, Consistent, QueuesHoldUpdates;
    CarriedIsHead(s, conn, k);
    CarriedAlone(s.book, conn, k);
    assert Key(s.book.updates, id).id != s.book.updates[k].queueId;
    HeadsDiffer(s.book, s.book.updates[id].queueId, k);
  }

  lemma RetryKeepsIndexed(s: State, conn: int, k: int, f: Failure, keep: bool, id: int)
    requires Inv(s) && Carried(s, conn, k) && Indexed(s.book, id)
    ensures k != id && Indexed(Release(Delay(s.book, k, f, s.now), conn, keep), id)
  {
    hide LoaderInv, Consistent;
    CarriedAlone(s.book, conn, k);
  }

  lemma LoadKeepsIndexed(s: State, k: int, q: int, id: int)
    requires Inv(s) && Enabled(s, Loaded(k, q)) && Indexed(s.book, id)
    ensures Indexed(Load(s, k).book, id)
  {
    hide Inv;
    LoadIsNew(s, k, q);
  }

  /** Only a dispatch of its own head takes a queue out of the index. */
  lemma StepKeepsIndexed(s: State, e: Step, id: int)
    requires Inv(s) && Enabled(s, e) && Indexed(s.book, id)
    requires !(Dispatches(e) && e.id == id)
    ensures Indexed(Apply(s, e).book, id)
  {
    hide Inv;
    match e
    case Loaded(k, q) => LoadKeepsIndexed(s, k, q, id);
    case Succeeded(conn, k, _, keep) => FinishKeepsIndexed(s, conn, k, keep, id);
    case Expired(conn, k, _, _, keep) => FinishKeepsIndexed(s, conn, k, keep, id);
    case Retried(conn, k, f, _, _, keep) => RetryKeepsIndexed(s, conn, k, f, keep, id);
    case Sent(_, k) => OtherQueue(s, k, id);
    case Parked(k) => OtherQueue(s, k, id);
    case _ =>
  }

  lemma OtherQueue(s: State, k: int, id: int)
    requires Inv(s) && IsHead(s.book, k) && IsHead(s.book, id) && k != id
    ensures s.book.updates[k].queueId != s.book.updates[id].queueId
  {
  }

  lemma WaitNotNegative(s: State, conn: int, id: int, f: Failure)
    requires Inv(s) && Carried(s, conn, id) && Drawable(f)
    ensures EffectiveDelay(s.book.updates[id].backoff, f) >= 0
  {
    hide LoaderInv, QueuesHoldUpdates, IndexKeyed, CarriesHeads, CarriedOnce, AllPlaced;
    assert Queued(s.book, id);
  }

  /** No step lets an update in at or before a wake-up that has passed. */
  lemma NobodyJoins(s: State, e: Step, w: int, k: int)
    requires Inv(s) && Enabled(s, e) && w < s.now
    requires k in Ahead(Apply(s, e).book, w)
    ensures k in Ahead(s.book, w) && !(Dispatches(e) && e.id == k)
  {
    hide Inv;
    StepChangesBackoff(s, e, k);
    if e.Retried? && e.id == k { WaitNotNegative(s, e.conn, k, e.failure); }
    PositiveIds(s);
    if k in s.book.updates { StepChangesFlight(s, e, k); }
  }

  lemma PositiveIds(s: State)
    requires Inv(s)
    ensures forall k | k in s.book.updates :: k > NO_EVENT
  {
  }

  /** A past-due entry stays where it is, and every dispatch of another queue uses
      up one of the updates ahead of it; nothing joins them. */
  lemma AheadShrinks(s: State, e: Step, id: int)
    requires Inv(s) && Enabled(s, e) && Indexed(s.book, id)
    requires s.book.updates[id].wakeupAt < s.now
    requires !(Dispatches(e) && e.id == id)
    ensures var s', w := Apply(s, e), s.book.updates[id].wakeupAt;
      && Indexed(s'.book, id) && s'.book.updates[id].wakeupAt == w < s'.now
      && |Ahead(s'.book, w)| + (if Dispatches(e) then 1 else 0) <= |Ahead(s.book, w)|
  {
    hide Inv;
    var s', w := Apply(s, e), s.book.updates[id].wakeupAt;
    StepKeepsIndexed(s, e, id);
    StepChangesBackoff(s, e, id);
    var gone := if Dispatches(e) then {e.id} else {};
    forall k | k in Ahead(s'.book, w)
      ensures k in Ahead(s.book, w) - gone
    {
      NobodyJoins(s, e, w, k);
    }
    if e.Retried? { CarriedNotIndexed(s, e.conn, e.id); }
    if Dispatches(e) { DispatchedWasAhead(s, e, id); }
    SubsetSize(Ahead(s'.book, w), Ahead(s.book, w) - gone);
  }

  lemma CarriedNotIndexed(s: State, conn: int, k: int)
    requires Inv(s) && Carried(s, conn, k)
    ensures !Indexed(s.book, k)
  {
    CarriedAlone(s.book, conn, k);
  }

  lemma DispatchedWasAhead(s: State, e: Step, id: int)
    requires Inv(s) && Enabled(s, e) && Dispatches(e) && Indexed(s.book, id)
    ensures e.id in Ahead(s.book, s.book.updates[id].wakeupAt)
  {
    IndexedAlone(s.book, e.id);
  }

  /** Once a queue's entry is strictly past due, the dispatches made before its
      own turn are fewer than the loaded updates whose wake-up is not later than
      its own; until then it stays in the index. */
  lemma {:induction false} BoundedOvertaking(s: State, tr: seq<Step>, id: int)
    requires Inv(s) && ValidRun(s, tr) && Indexed(s.book, id) && Waits(tr, id)
    requires s.book.updates[id].wakeupAt < s.now
    ensures var w := s.book.updates[id].wakeupAt;
      && Indexed(After(s, tr).book, id) && After(s, tr).book.updates[id].wakeupAt == w < After(s, tr).now
      && DispatchesIn(tr) + |Ahead(After(s, tr).book, w)| <= |Ahead(s.book, w)|
      && DispatchesIn(tr) < |Ahead(s.book, w)|
    decreases |tr|
  {
    hide Inv, Apply, Enabled, Ahead;
    if tr != [] {
      assert Last(tr) in tr && forall e | e in Front(tr) :: e in tr;
      BoundedOvertaking(s, Front(tr), id);
      RunKeepsInv(s, Front(tr));
      AheadShrinks(After(s, Front(tr)), Last(tr), id);
    }
    RunKeepsInv(s, tr);
    SelfAhead(After(s, tr), id);
  }

  lemma SelfAhead(s: State, id: int)
    requires Inv(s) && Indexed(s.book, id)
    ensures |Ahead(s.book, s.book.updates[id].wakeupAt)| > 0
  {
    IndexedAlone(s.book, id);
    assert id in Ahead(s.book, s.book.updates[id].wakeupAt);
  }

  // ---------- A send whose headers could not be built ----------

  lemma StepKeepsParked(s: State, e: Step, q: int)
    requires Inv(s) && Enabled(s, e) && q in s.book.parked
    ensures q in Apply(s, e).book.parked && q in Apply(s, e).book.queueUpdates && q in s.book.queueUpdates
    ensures Waiting(s.book, q) <= Waiting(Apply(s, e).book, q)
    ensures !(Dispatches(e) && e.id in Waiting(s.book, q)) && !(Finishes(e) && e.id in Waiting(s.book, q))
  {
    hide Inv;
    StepKeepsOrder(s, e, q);
    ParkedWaits(s, q);
    if Dispatches(e) { NotParked(s, e.id); }
    if Finishes(e) || e.Retried? { CarriedNotParked(s, e.conn, e.id); }
  }

  lemma ParkedWaits(s: State, q: int)
    requires Inv(s) && q in s.book.parked
    ensures q in s.book.queueUpdates
    ensures forall k | k in Waiting(s.book, q) :: k in s.book.updates && s.book.updates[k].queueId == q
  {
    assert QueueHolds(s.book.updates, q, s.book.queueUpdates[q]);
  }

  lemma NotParked(s: State, id: int)
    requires Inv(s) && Indexed(s.book, id)
    ensures s.book.updates[id].queueId !in s.book.parked
  {
    IndexedAlone(s.book, id);
  }

  lemma CarriedNotParked(s: State, conn: int, id: int)
    requires Inv(s) && Carried(s, conn, id)
    ensures s.book.updates[id].queueId !in s.book.parked
  {
    CarriedAlone(s.book, conn, id);
  }

  /** A queue parked by a failed header build is never served again: none of its
      updates is sent or finished in any continuation. */
  lemma {:induction false} ParkedForever(s: State, tr: seq<Step>, q: int)
    requires Inv(s) && ValidRun(s, tr) && q in s.book.parked
    ensures q in After(s, tr).book.parked && Waiting(s.book, q) <= Waiting(After(s, tr).book, q)
    ensures forall e | e in tr && (Dispatches(e) || Finishes(e)) :: e.id !in Waiting(s.book, q)
    decreases |tr|
  {
    hide Inv, Apply, Enabled;
    if tr != [] {
      ParkedForever(s, Front(tr), q);
      RunKeepsInv(s, Front(tr));
      StepKeepsParked(After(s, Front(tr)), Last(tr), q);
      assert forall e | e in tr :: e in Front(tr) || e == Last(tr);
    }
  }

  lemma StepParks(s: State, e: Step)
    requires Inv(s) && Enabled(s, e)
    ensures e.Parked? ==> e.id in s.book.updates
    ensures Apply(s, e).book.parked
            == if e.Parked? then s.book.parked + {s.book.updates[e.id].queueId} else s.book.parked
  {
    hide Inv;
  }

  lemma {:induction false} ParkedByParking(s: State, tr: seq<Step>)
    requires FromStart(s, tr)
    ensures After(s, tr).book.parked == {} <==> forall e | e in tr :: !e.Parked?
    decreases |tr|
  {
    hide Inv, Apply, Enabled;
    if tr != [] {
      ReachedInv(s, tr);
      ParkedByParking(s, Front(tr));
      StepParks(After(s, Front(tr)), Last(tr));
      assert forall e | e in tr :: e in Front(tr) || e == Last(tr);
      assert Last(tr) in tr && forall e | e in Front(tr) :: e in tr;
    }
  }

  /** The queue is in the index or its head is in flight. */
  ghost predicate Handled(b: Book, q: int)
    requires q in b.queueUpdates && b.queueUpdates[q] != []
  {
    var head := b.queueUpdates[q][0];
    Indexed(b, head) || InFlight(b.connections, head)
  }

  lemma HandledUnlessParked(b: Book)
    requires Consistent(b)
    ensures forall q | q in b.queueUpdates :: b.queueUpdates[q] != []
    ensures (forall q | q in b.queueUpdates :: Handled(b, q)) <==> b.parked == {}
  {
    forall q | q in b.queueUpdates
      ensures b.queueUpdates[q] != [] && (Handled(b, q) <==> q !in b.parked)
    {
      assert InOnePlace(b, q);
      assert QueueHolds(b.updates, q, b.queueUpdates[q]) && b.queueUpdates[q][0] in b.queueUpdates[q];
    }
    if b.parked != {} {
      var q := Pick(b.parked);
      assert q in b.queueUpdates && !Handled(b, q);
    }
  }

  /** In a run from the start every queue of loaded updates is in the index or has
      its head in flight, if and only if no header build has failed. */
  lemma NothingStranded(s: State, tr: seq<Step>)
    requires FromStart(s, tr)
    ensures var b := After(s, tr).book;
      && (forall q | q in b.queueUpdates :: b.queueUpdates[q] != [])
      && ((forall q | q in b.queueUpdates :: Handled(b, q)) <==> forall e | e in tr :: !e.Parked?)
  {
    hide Apply, Enabled;
    ReachedInv(s, tr);
    ParkedByParking(s, tr);
    HandledUnlessParked(After(s, tr).book);
  }
}
