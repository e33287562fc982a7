/** Which queue an event of the log is loaded into, and what that means for the
    order in which the events of one kind are sent. */
module EventQueues {
  import opened RetryPolicy
  import opened DeliveryBook
  import opened Scheduler
  import opened SchedulerRuns
  import opened DeliveryGuarantees

  // ---------- The queue of an event ----------

  /** A loaded update waits in the queue that the log names for its event, and has the
      expiry time of the event. */
  ghost predicate AsLogged(s: State) {
    forall id | id in s.book.updates && id in s.log ::
      && s.book.updates[id].expiresAt == s.log[id].expiresAt
      && (s.log[id].extra != 0 ==> s.book.updates[id].queueId == s.log[id].extra)
      && (s.log[id].extra == 0 ==> s.book.updates[id].queueId >= 0x1000_0000_0000_0000)
  }

  /** A step leaves expiry time and queue of the updates as they are. */
  ghost predicate KeepsQueues(s: State, s': State) {
    && (forall id | id in s'.book.updates && id in s.book.updates ::
          && s'.book.updates[id].expiresAt == s.book.updates[id].expiresAt
          && s'.book.updates[id].queueId == s.book.updates[id].queueId)
    && (forall id | id in s'.log && id < s.tail :: id in s.log && s'.log[id] == s.log[id])
    && s.highest < s.tail && forall id | id in s.book.updates :: id < s.tail
  }

  lemma StepKeepsQueues(s: State, e: Step)
    requires Inv(s) && Enabled(s, e)
    ensures KeepsQueues(s, Apply(s, e))
  {
    hide Inv, Apply, Enabled;
    LoaderBounds(s);
    LogOnlyGrows(s, e);
    forall id | id in Apply(s, e).book.updates && id in s.book.updates
      ensures Apply(s, e).book.updates[id].expiresAt == s.book.updates[id].expiresAt
      ensures Apply(s, e).book.updates[id].queueId == s.book.updates[id].queueId
    {
      StepChangesBackoff(s, e, id);
    }
  }

  lemma LogOnlyGrows(s: State, e: Step)
    requires Enabled(s, e)
    ensures forall id | id in Apply(s, e).log && id < s.tail :: id in s.log && Apply(s, e).log[id] == s.log[id]
  {
    hide Add, Drop, Delay, Open, Close, Send, Park, Release, NextToLoad, Due, TooLate;
  }

  lemma LoaderBounds(s: State)
    requires Inv(s)
    ensures s.highest < s.tail && forall id | id in s.book.updates :: id <= s.highest
    ensures UNIQUE_QUEUES <= s.uniqueQueueId && forall id | id in s.log :: s.log[id].extra < UNIQUE_QUEUES
  {
  }

  /** An event that names a queue is loaded into it; any other one into a queue with
      a number that no event names and no other load has got. */
  lemma LoadNames(s: State, id: int, q: int)
    requires Inv(s) && Enabled(s, Loaded(id, q))
    ensures id in s.log && var e, s' := s.log[id], Load(s, id);
      && (e.extra != 0 ==> q == e.extra && q < UNIQUE_QUEUES && s'.uniqueQueueId == s.uniqueQueueId)
      && (e.extra == 0 ==> UNIQUE_QUEUES <= s.uniqueQueueId == q && s'.uniqueQueueId == q + 1)
      && id in s'.book.updates && s'.book.updates[id] == Update(e.expiresAt, 0, s.now, Backoff(1, 0), q)
      && s'.log == s.log && id !in s.book.updates
      && s'.book.updates.Keys == s.book.updates.Keys + {id}
  {
    hide Inv, Waiting;
    LoaderBounds(s);
    LoadAppends(s, id, q, q);
  }

  lemma StepKeepsLogged(s: State, e: Step)
    requires Inv(s) && Enabled(s, e) && AsLogged(s)
    ensures AsLogged(Apply(s, e))
  {
    hide Inv, Apply, Enabled, Load;
    StepKeepsQueues(s, e);
    StepMovesUpdates(s, e);
    if e.Loaded? {
      LoadNames(s, e.id, e.queueId);
      ApplyLoads(s, e);
    }
  }

  lemma ApplyLoads(s: State, e: Step)
    requires Enabled(s, e) && e.Loaded?
    ensures e.id in s.log && Apply(s, e) == Load(s, e.id)
  {
    hide Load;
  }

  lemma {:induction false} LoadedAsLogged(s: State, tr: seq<Step>)
    requires FromStart(s, tr)
    ensures AsLogged(After(s, tr))
    decreases |tr|
  {
    hide Inv, Apply, Enabled;
    ReachedInv(s, tr);
    if tr != [] {
      LoadedAsLogged(s, Front(tr));
      hide AsLogged;
      StepKeepsLogged(After(s, Front(tr)), Last(tr));
    }
  }

  // ---------- Loads of a run ----------

  lemma CountersGrow(s: State, e: Step)
    requires Inv(s) && Enabled(s, e)
    ensures s.highest <= Apply(s, e).highest && s.uniqueQueueId <= Apply(s, e).uniqueQueueId
    ensures e.Loaded? ==> s.highest < e.id == Apply(s, e).highest && e.queueId < Apply(s, e).uniqueQueueId
  {
    hide Inv, Add, NextToLoad, Due, Drop, Delay, TooLate, Carried;
    LoaderBounds(s);
    if e.Loaded? {
      LoadAppends(s, e.id, e.queueId, e.queueId);
      LoadNames(s, e.id, e.queueId);
    }
  }

  lemma {:induction false} LoadsBelow(s: State, tr: seq<Step>, i: nat)
    requires FromStart(s, tr) && i < |tr| && tr[i].Loaded?
    ensures tr[i].id <= After(s, tr).highest && tr[i].queueId < After(s, tr).uniqueQueueId
    decreases |tr|
  {
    hide Inv, Apply, Enabled;
    ReachedInv(s, tr);
    CountersGrow(After(s, Front(tr)), Last(tr));
    if i < |tr| - 1 {
      assert Front(tr)[i] == tr[i];
      LoadsBelow(s, Front(tr), i);
    }
  }

  /** Later loads are of later events. */
  lemma LoadsIncrease(s: State, tr: seq<Step>, i: nat, j: nat)
    requires FromStart(s, tr) && i < j < |tr| && tr[i].Loaded? && tr[j].Loaded?
    ensures tr[i].id < tr[j].id
  {
    hide Inv, Apply, Enabled;
    PrefixValid(s, tr, j);
    ReachedInv(s, tr[..j]);
    LoadsBelow(s, tr[..j], i);
    CountersGrow(After(s, tr[..j]), tr[j]);
  }

  /** The event that step `k` of the run loads, as the log has it by then. */
  ghost function EventAt(s: State, tr: seq<Step>, k: nat): LogEvent
    requires FromStart(s, tr) && k < |tr| && tr[k].Loaded?
  {
    PrefixValid(s, tr, k);
    After(s, tr[..k]).log[tr[k].id]
  }

  /** In any run an event that names a queue is loaded into that one, and any other
      event into a queue of its own. */
  lemma LoadedIntoItsQueue(s: State, tr: seq<Step>, k: nat)
    requires FromStart(s, tr) && k < |tr| && tr[k].Loaded?
    ensures var e := EventAt(s, tr, k);
      && (e.extra != 0 ==> tr[k].queueId == e.extra)
      && (e.extra == 0 ==> tr[k].queueId >= 0x1000_0000_0000_0000
                           && forall m | 0 <= m < |tr| && tr[m].Loaded? && m != k :: tr[m].queueId != tr[k].queueId)
  {
    hide Inv, Apply, Enabled;
    NumberAt(s, tr, k);
    if EventAt(s, tr, k).extra == 0 {
      forall m | 0 <= m < |tr| && tr[m].Loaded? && m != k
        ensures tr[m].queueId != tr[k].queueId
      {
        hide EventAt;
        NumberAt(s, tr, m);
        if m < k { NumbersDiffer(s, tr, m, k); } else { NumbersDiffer(s, tr, k, m); }
      }
    }
  }

  lemma NumberAt(s: State, tr: seq<Step>, k: nat)
    requires FromStart(s, tr) && k < |tr| && tr[k].Loaded?
    ensures ValidRun(s, tr[..k])
    ensures var before := After(s, tr[..k]);
      && tr[k].id in before.log && EventAt(s, tr, k) == before.log[tr[k].id]
      && (EventAt(s, tr, k).extra != 0 ==> tr[k].queueId == EventAt(s, tr, k).extra < UNIQUE_QUEUES)
      && (EventAt(s, tr, k).extra == 0 ==> UNIQUE_QUEUES <= before.uniqueQueueId == tr[k].queueId)
  {
    hide Inv, Apply, Enabled;
    PrefixValid(s, tr, k);
    ReachedInv(s, tr[..k]);
    LoadNames(After(s, tr[..k]), tr[k].id, tr[k].queueId);
  }

  lemma NumbersDiffer(s: State, tr: seq<Step>, m: nat, k: nat)
    requires FromStart(s, tr) && m < k < |tr| && tr[m].Loaded? && tr[k].Loaded?
    requires EventAt(s, tr, m).extra == 0 || EventAt(s, tr, k).extra == 0
    ensures tr[m].queueId != tr[k].queueId
  {
    hide Inv, Apply, Enabled, EventAt;
    NumberAt(s, tr, m);
    NumberAt(s, tr, k);
    LoadsBelow(s, tr[..k], m);
  }

  // ---------- The order of sending ----------

  lemma {:induction false} LoadedInHolds(tr: seq<Step>, q: int, i: nat)
    requires i < |tr| && tr[i].Loaded? && tr[i].queueId == q
    ensures tr[i].id in LoadedIn(tr, q)
  {
    if i < |tr| - 1 {
      assert Front(tr)[i] == tr[i];
      LoadedInHolds(Front(tr), q, i);
    }
  }

  lemma {:induction false} LoadOf(tr: seq<Step>, q: int, id: int) returns (i: nat)
    requires id in LoadedIn(tr, q)
    ensures i < |tr| && tr[i] == Loaded(id, q)
  {
    if id in LoadedIn(Front(tr), q) {
      i := LoadOf(Front(tr), q, id);
    } else {
      i := |tr| - 1;
    }
  }

  lemma {:induction false} FinishOf(tr: seq<Step>, q: int, id: int) returns (m: nat)
    requires id in FinishedIn(tr, q)
    ensures m < |tr| && Finishes(tr[m]) && tr[m].id == id
  {
    if id in FinishedIn(Front(tr), q) {
      m := FinishOf(Front(tr), q, id);
    } else {
      m := |tr| - 1;
    }
  }

  /** What comes before `b` in a list is in every list that `b` continues to be a part
      of that. */
  lemma BeforeIsIn(all: seq<int>, done: seq<int>, a: int, b: int)
    requires Increasing(all) && done + [b] <= all && a in all && a < b
    ensures a in done
  {
    var i :| 0 <= i < |all| && all[i] == a;
    assert all[|done|] == b;
    assert i < |done|;
    assert done[i] == all[i];
  }

  /** The queue in which an update waits is the one that the run loaded it into. */
  lemma QueueOfSent(s: State, tr: seq<Step>, j: nat, n: nat)
    requires FromStart(s, tr) && j < n < |tr| && tr[j].Loaded? && tr[n].Sent? && tr[n].id == tr[j].id
    ensures ValidRun(s, tr[..n]) && tr[n].id in After(s, tr[..n]).book.updates
    ensures After(s, tr[..n]).book.updates[tr[n].id].queueId == tr[j].queueId
  {
    hide Inv, Apply, Enabled;
    SentInOrder(s, tr, n);
    var q := After(s, tr[..n]).book.updates[tr[n].id].queueId;
    var done := FinishedIn(tr[..n], q);
    assert LoadedIn(tr[..n], q)[|done|] == tr[n].id;
    var i := LoadOf(tr[..n], q, tr[n].id);
    if i < j { LoadsIncrease(s, tr, i, j); }
    if j < i { LoadsIncrease(s, tr, j, i); }
  }

  /** Of two events that name the same queue, the one loaded later is sent only when
      the earlier one is finished. */
  lemma SameQueueInOrder(s: State, tr: seq<Step>, i: nat, j: nat, n: nat) returns (m: nat)
    requires FromStart(s, tr) && i < j < n < |tr| && tr[i].Loaded? && tr[j].Loaded?
    requires EventAt(s, tr, i).extra == EventAt(s, tr, j).extra != 0
    requires tr[n].Sent? && tr[n].id == tr[j].id
    ensures m < n && Finishes(tr[m]) && tr[m].id == tr[i].id
  {
    hide Inv, Apply, Enabled, EventAt;
    LoadedIntoItsQueue(s, tr, i);
    LoadedIntoItsQueue(s, tr, j);
    LoadsIncrease(s, tr, i, j);
    QueueOfSent(s, tr, j, n);
    SentInOrder(s, tr, n);
    var q := tr[j].queueId;
    assert tr[..n][i] == tr[i];
    LoadedInHolds(tr[..n], q, i);
    QueueOrder(s, tr[..n], q);
    BeforeIsIn(LoadedIn(tr[..n], q), FinishedIn(tr[..n], q), tr[i].id, tr[n].id);
    m := FinishOf(tr[..n], q, tr[i].id);
  }
}
