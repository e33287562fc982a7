/** The webhook actor. Its methods update its fields in place; a
    history of the atomic steps they take shows that every reachable state is one
    of the scheduler state machine. What comes from outside (clock readings, the
    outcome of opening a socket, flood control, random draws) is arbitrary. */
module WebhookActors {
  import opened FiniteSets
  import opened Options
  import opened UnixClock
  import opened RetryPolicy
  import opened DeliveryBook
  import opened Scheduler
  import opened SchedulerRuns
  import opened Counting
  import opened CallbackProtocol
  import opened ActorSteps
  import opened EventQueues

  const IP_ADDRESS_CACHE_TIME := 30 * 60
  const TQUEUE_EVENT_BUFFER_SIZE := 1000
  const HTTPS_PORTS := {80, 88, 443, 8443}

  datatype IpAddress = NoAddress | Address(host: int, ipv4: bool, reserved: bool)

  class WebhookActor {
    const httpUrl: bool
    const port: int
    const localMode: bool
    const proxied: bool
    const fixIpAddress: bool
    const fromDbFlag: bool
    const maxConnections: int

    // the clock and the part of the shared log that belongs to this bot
    var clock: int
    var unixTimeDifference: int
    var tqueue: map<int, LogEvent>
    var tqueueTail: int

    // the scheduler
    var tqueueOffset: int
    var tqueueEmpty: bool
    var maxLoadedUpdates: nat
    var updateMap: map<int, Update>
    var queueUpdates: map<int, seq<int>>
    var queues: set<Queue>
    var uniqueQueueId: int
    var connections: map<int, Connection>
    var readyConnections: set<int>

    // sockets, messages and flags
    var pendingSockets: set<int>
    var readySockets: nat
    var nextId: int
    var callbackAlive: bool
    var stopFlag: bool
    var stopped: bool
    var wasChecked: bool
    var wakeupAt: int

    // the rest
    var ipAddress: IpAddress
    var ipGeneration: int
    var nextIpAddressResolveTime: int
    var isIpAddressBeingResolved: bool
    var sslReady: bool
    var lastSuccessTime: int
    var lastUpdateWasSuccessful: bool
    var firstError410Time: int
    var timeoutAt: int
    var closeRequested: bool

    // history
    ghost var highest: int
    ghost var parked: set<int>
    ghost var messages: seq<Message>

    /** The actor was verified at its start, because it came from the database. */
    ghost var restored: bool

    /** What the log answered so far. */
    ghost var loads: seq<LogAnswer>
    ghost var start: State
    ghost var trace: seq<Step>

    ghost function CurrentBook(): Book
      reads `updateMap, `queueUpdates, `queues, `connections, `readyConnections, `parked
    {
      Book(updateMap, queueUpdates, queues, connections, readyConnections, parked)
    }

    /** The state of the scheduler. */
    ghost function Current(): State
      reads `clock, `unixTimeDifference, `tqueue, `tqueueTail, `tqueueOffset, `tqueueEmpty, `uniqueQueueId,
            `maxLoadedUpdates, `highest, `updateMap, `queueUpdates, `queues, `connections, `readyConnections, `parked
    {
      State(clock, unixTimeDifference, tqueue, tqueueTail, tqueueOffset, tqueueEmpty, uniqueQueueId,
            maxLoadedUpdates, highest, CurrentBook())
    }

    /** The state of the rest of the actor. */
    ghost function CurrentLife(): Life
      reads `pendingSockets, `readySockets, `nextId, `messages, `callbackAlive, `stopFlag, `stopped, `wasChecked,
            `wakeupAt, `restored, `loads
    {
      Life(maxConnections, pendingSockets, readySockets, nextId, messages, callbackAlive, stopFlag, stopped,
           wasChecked, wakeupAt, restored, loads)
    }

    ghost predicate Valid()
      reads `clock, `unixTimeDifference, `tqueue, `tqueueTail, `tqueueOffset, `tqueueEmpty, `uniqueQueueId,
            `maxLoadedUpdates, `highest, `updateMap, `queueUpdates, `queues, `connections, `readyConnections, `parked,
            `pendingSockets, `readySockets, `nextId, `messages, `callbackAlive, `stopFlag, `stopped, `wasChecked,
            `wakeupAt, `restored, `loads, `start, `trace
    {
      Traced(start, trace, Current()) && Fits(CurrentLife(), Current())
    }

    lemma Fields()
      ensures var s := Current();
        && s.now == clock && s.unixDiff == unixTimeDifference && s.log == tqueue && s.tail == tqueueTail
        && s.offset == tqueueOffset && s.drained == tqueueEmpty && s.maxLoaded == maxLoadedUpdates
        && s.book.updates == updateMap && s.book.queueUpdates == queueUpdates && s.book.queues == queues
        && s.book.connections == connections && s.book.ready == readyConnections && s.book.parked == parked
    {
    }

    lemma Highest()
      ensures Current().highest == highest
    {
    }

    lemma LifeFields()
      ensures var l := CurrentLife();
        && l.maxConnections == maxConnections && l.pendingSockets == pendingSockets && l.readySockets == readySockets
        && l.nextId == nextId && l.stopFlag == stopFlag && l.stopped == stopped && l.wasChecked == wasChecked
        && l.wakeupAt == wakeupAt && l.callbackAlive == callbackAlive && l.messages == messages
        && l.restored == restored && l.loads == loads
    {
    }

    lemma ValidInv()
      requires Valid()
      ensures Inv(Current())
    {
      hide Inv;
      TracedInv(start, trace, Current());
    }

    // What the theorems about runs and books say about the fields.

    /** Each queue holds what was loaded for it and is not finished, in order. */
    lemma QueueHoldsTheRest(q: int)
      requires Valid()
      ensures LoadedIn(trace, q) == FinishedIn(trace, q) + if q in queueUpdates then queueUpdates[q] else []
    {
      hide Inv, Fits;
      Fields();
      QueueOrder(start, trace, q);
    }

    /** A loaded update that is still in the log has the expiry time of its event, and
        waits in the queue that the event names. */
    lemma HeldAsLogged(id: int)
      requires Valid() && id in updateMap && id in tqueue
      ensures updateMap[id].expiresAt == tqueue[id].expiresAt
      ensures tqueue[id].extra != 0 ==> updateMap[id].queueId == tqueue[id].extra
      ensures tqueue[id].extra == 0 ==> updateMap[id].queueId >= 0x1000_0000_0000_0000
    {
      hide Inv, Fits;
      Fields();
      LoadedAsLogged(start, trace);
    }

    /** Of two loaded events that name the same queue the later one waits behind the
        earlier one. */
    lemma WaitsBehind(a: int, b: int) returns (i: nat, j: nat)
      requires Valid() && a in updateMap && a in tqueue && b in updateMap && b in tqueue && a < b
      requires tqueue[a].extra == tqueue[b].extra != 0
      ensures tqueue[a].extra in queueUpdates
      ensures var q := queueUpdates[tqueue[a].extra]; i < j < |q| && q[i] == a && q[j] == b
    {
      hide Traced, Fits, LoaderInv, IndexKeyed, CarriesHeads, CarriedOnce, AllPlaced;
      HeldAsLogged(a);
      HeldAsLogged(b);
      ValidInv();
      var q := tqueue[a].extra;
      assert Queued(CurrentBook(), a) && Queued(CurrentBook(), b);
      assert QueueHolds(updateMap, q, queueUpdates[q]);
      i :| 0 <= i < |queueUpdates[q]| && queueUpdates[q][i] == a;
      j :| 0 <= j < |queueUpdates[q]| && queueUpdates[q][j] == b;
    }

    /** The limits on connections and on loaded queues hold, and the sizes of the
        fields fit together. */
    lemma SizesFit()
      requires Valid()
      ensures |connections| + |pendingSockets| + readySockets <= maxConnections
      ensures |queueUpdates| <= maxLoadedUpdates
      ensures |updateMap| == WaitingIn(CurrentBook(), queueUpdates.Keys)
      ensures |queueUpdates| == |queues| + |parked| + |connections| - |readyConnections|
    {
      hide Traced, Consistent;
      ValidInv();
      PendingFigure(CurrentBook());
    }

    /** The owner has heard an orderly sequence of messages. A success came before
        the verification exactly if the log, asked before it, gave all that it said
        was waiting; never for an actor restored from the database. */
    lemma MessagesOrderly()
      requires Valid()
      ensures Orderly(messages)
      ensures EarlySuccess(messages) <==> exists a | a in loads :: a.Complete() && !a.checked
      ensures restored ==> !EarlySuccess(messages)
    {
      hide Traced, Orderly, EarlySuccess;
    }

    /** Write down the step `e` that is taken from state `s`. */
    ghost method Record(s: State, e: Step)
      requires Traced(start, trace, s) && Enabled(s, e)
      modifies `trace
      ensures trace == old(trace) + [e] && Traced(start, trace, Apply(s, e))
      ensures Current() == old(Current()) && CurrentLife() == old(CurrentLife())
    {
      hide Traced, Enabled, Apply, Current, CurrentLife;
      TraceExtends(start, trace, s, e);
      trace := trace + [e];
    }

    // ---------- The environment ----------

    method ReadClock()
      modifies `clock, `unixTimeDifference
      ensures old(clock) <= clock && old(unixTimeDifference) <= unixTimeDifference
      ensures Current() == old(Current()).(now := clock, unixDiff := unixTimeDifference)
      ensures CurrentLife() == old(CurrentLife())
    {
      var elapsed: nat :| true;
      var synchronized: nat :| true;
      clock := clock + elapsed;
      unixTimeDifference := unixTimeDifference + synchronized;
    }

    method Now() returns (now: int)
      requires Valid()
      modifies `clock, `unixTimeDifference, `trace
      ensures Valid() && now == clock == Current().now && 0 < now
      ensures old(Current()).now <= now && old(Current()).unixDiff <= unixTimeDifference
      ensures Current() == old(Current()).(now := now, unixDiff := unixTimeDifference)
      ensures CurrentLife() == old(CurrentLife())
      ensures trace == old(trace) + [Ticked(now, unixTimeDifference)]
    {
      hide Inv, Traced, CurrentLife;
      ghost var s := Current();
      ReadClock();
      now := clock;
      SameConnectionsFit(CurrentLife(), s, Current());
      hide Bounded, Talks;
      Record(s, Ticked(clock, unixTimeDifference));
    }

    /** `push` of the log, by the bot's client. */
    method Push(event: LogEvent) returns (id: int)
      requires Valid()
      requires event.extra < UNIQUE_QUEUES && event.expiresAt <= MAX_INT32
      modifies `tqueue, `tqueueTail, `trace
      ensures Valid() && trace == old(trace) + [Pushed(id, event)]
      ensures id !in old(tqueue) && tqueue == old(tqueue)[id := event]
    {
      hide Inv, Traced, CurrentLife, Bounded, Talks;
      ghost var s := Current();
      ValidInv();
      LoaderLimits(s);
      var skipped: nat :| true;
      id := tqueueTail + skipped;
      tqueue := tqueue[id := event];
      tqueueTail := id + 1;
      Record(s, Pushed(id, event));
    }

    /** Garbage collection or clearing of the log, by others. */
    method Purge(ids: set<int>)
      requires Valid()
      modifies `tqueue, `trace
      ensures Valid() && tqueue == old(tqueue) - ids && trace == old(trace) + [Purged(ids)]
    {
      hide Inv, Traced, CurrentLife, Bounded, Talks;
      ghost var s := Current();
      tqueue := tqueue - ids;
      Record(s, Purged(ids));
    }

    /** `get_head` of the log: its least id, or for an empty log either the next
        id or nothing. */
    method GetHead() returns (head: int)
      requires LogWellFormed(Current())
      ensures head <= tqueueTail && forall id | id in tqueue :: head <= id
      ensures head == NO_EVENT ==> tqueue == map[]
    {
      if tqueue.Keys == {} {
        var created: bool :| true;
        head := if created then tqueueTail else NO_EVENT;
      } else {
        ghost var least := LeastExists(tqueue.Keys);
        head :| head in tqueue.Keys && forall id | id in tqueue.Keys :: head <= id;
      }
    }

    /** `get` of the log: it may fail for an offset that is not the head. */
    method GetEvents(offset: int, limit: nat) returns (failed: bool, ids: seq<int>)
      ensures failed ==> !(forall id | id in tqueue :: offset <= id)
      ensures !failed ==> IsBatch(Current(), offset, limit, ids)
    {
      ids := [];
      var refused: bool :| true;
      failed := refused && !forall id | id in tqueue :: offset <= id;
      var now := UnixTime(unixTimeDifference, clock);
      var left := set id | id in tqueue && offset <= id && tqueue[id].expiresAt >= now;
      while left != {} && |ids| < limit
        invariant Increasing(ids) && |ids| <= limit
        invariant forall id | id in ids :: Live(Current(), id) && offset <= id && id !in left
        invariant forall id | id in left :: Live(Current(), id) && offset <= id
        invariant forall id | Live(Current(), id) && offset <= id :: id in left || id in ids
        invariant forall k, id | k in ids && id in left :: k < id
        decreases |left|
      {
        ghost var least := LeastExists(left);
        var id :| id in left && forall k | k in left :: id <= k;
        SchedulerRuns.AppendIncreasing(ids, id);
        ids := ids + [id];
        left := left - {id};
      }
    }

    // ---------- Messages to the owner ----------

    ghost method Tell(m: Message)
      modifies `messages
      ensures CurrentLife() == Say(old(CurrentLife()), m)
      ensures messages == if callbackAlive then old(messages) + [m] else old(messages)
    {
      if callbackAlive {
        messages := messages + [m];
      }
    }

    method OnWebhookVerified()
      modifies `messages
      ensures CurrentLife() == Say(old(CurrentLife()), WebhookVerified)
      ensures messages == if callbackAlive then old(messages) + [WebhookVerified] else old(messages)
    {
      Tell(WebhookVerified);
    }

    method OnWebhookError()
      requires Valid()
      modifies `messages
      ensures Valid() && CurrentLife() == SayError(old(CurrentLife()))
      ensures messages == if callbackAlive && wasChecked then old(messages) + [WebhookError] else old(messages)
    {
      hide Traced, Current, CurrentBook, Fits;
      if wasChecked {
        SayFits(CurrentLife(), Current(), WebhookError);
        Tell(WebhookError);
      }
    }

    /** An error closes the actor while the webhook has not been verified. */
    method OnError()
      requires Valid() && !stopped
      modifies `messages, `callbackAlive, `stopFlag
      ensures Valid() && CurrentLife() == Fail(old(CurrentLife()))
      ensures if old(wasChecked || stopFlag)
              then messages == old(messages) && stopFlag == old(stopFlag) && callbackAlive == old(callbackAlive)
              else stopFlag && !callbackAlive && messages == old(messages) + [WebhookClosed(false)]
    {
      hide Traced, Current, CurrentBook, Fits;
      FailFits(CurrentLife(), Current());
      if !wasChecked && !stopFlag {
        assert callbackAlive;
        Tell(WebhookClosed(false));
        callbackAlive := false;
        stopFlag := true;
      }
    }

    method CreateWebhookError()
      requires Valid() && !stopped
      modifies `messages, `callbackAlive, `stopFlag
      ensures Valid() && CurrentLife() == Fail(SayError(old(CurrentLife())))
    {
      hide Traced, Current, CurrentBook, Fits;
      OnWebhookError();
      OnError();
    }

    /** The first sign that the webhook can be reached. */
    method BecomeChecked()
      modifies `wasChecked, `messages
      ensures wasChecked && CurrentLife() == Check(old(CurrentLife()))
      ensures messages == if callbackAlive && !old(wasChecked) then old(messages) + [WebhookVerified] else old(messages)
    {
      if !wasChecked {
        wasChecked := true;
        OnWebhookVerified();
      }
    }

    // ---------- Timer ----------

    method RelaxWakeupAt(at: int)
      requires Valid() && 0 < at
      modifies `wakeupAt
      ensures Valid() && 0 < wakeupAt && wakeupAt == if old(wakeupAt) == 0 || at < old(wakeupAt) then at else old(wakeupAt)
      ensures CurrentLife() == old(CurrentLife()).(wakeupAt := wakeupAt)
    {
      hide Traced, Current, CurrentBook, Fits;
      WakeupFits(CurrentLife(), Current(), at);
      if wakeupAt == 0 || at < wakeupAt {
        wakeupAt := at;
      }
    }

    // ---------- Loading ----------

    /** The body of the loading loop, for an event that is not loaded yet. */
    method LoadUpdate(id: int)
      requires id in tqueue && tqueue[id].expiresAt >= UnixTime(unixTimeDifference, clock)
      modifies `tqueueOffset, `updateMap, `queueUpdates, `queues, `uniqueQueueId, `highest
      ensures Current() == Load(old(Current()), id)
    {
      var event := tqueue[id];
      assert event.expiresAt >= UnixTime(unixTimeDifference, clock);
      var queueId := event.extra;
      tqueueOffset := id + 1;
      if queueId == 0 {
        queueId := uniqueQueueId;
        uniqueQueueId := uniqueQueueId + 1;
      }
      highest := id;
      Enqueue(id, DeliveryBook.Update.Update(event.expiresAt, 0, clock, FRESH, queueId));
    }

    /** Put an update at the end of its queue; a new queue goes into the index. */
    method Enqueue(id: int, update: Update)
      modifies `updateMap, `queueUpdates, `queues
      ensures CurrentBook() == Add(old(CurrentBook()), id, update)
    {
      updateMap := updateMap[id := update];
      var waiting := if update.queueId in queueUpdates then queueUpdates[update.queueId] else [];
      if waiting == [] {
        queues := queues + {Queue(update.wakeupAt, update.queueId)};
      }
      queueUpdates := queueUpdates[update.queueId := waiting + [id]];
    }

    /** Load the next event and note the step. */
    method LoadNext(id: int)
      requires Valid() && NextToLoad(Current(), id) && |Current().book.queueUpdates| < Current().maxLoaded
      modifies `tqueueOffset, `updateMap, `queueUpdates, `queues, `uniqueQueueId, `highest, `trace
      ensures Valid() && Current() == Load(old(Current()), id) && CurrentLife() == old(CurrentLife())
      ensures trace == old(trace) + [Loaded(id, QueueOf(old(Current()), old(Current()).log[id]))]
    {
      hide Inv, Traced, Fits, Apply, Enabled, NextToLoad, Load, Current, CurrentBook, CurrentLife;
      ghost var s := Current();
      ValidInv();
      LoadSteps(s, id);
      Fields();
      LoadUpdate(id);
      SameLoadFits(CurrentLife(), s, id);
      Record(s, Loaded(id, QueueOf(s, s.log[id])));
    }

    method LoadAll(updates: seq<int>, ghost limit: nat)
      requires Valid() && IsBatch(Current(), Current().offset, limit, updates)
      requires |Current().book.queueUpdates| + limit <= Current().maxLoaded
      modifies `tqueueOffset, `updateMap, `queueUpdates, `queues, `uniqueQueueId, `highest, `trace
      ensures Valid() && old(trace) <= trace && CurrentLife() == old(CurrentLife())
      ensures IsBatch(Current(), old(Current()).offset, limit, updates) && NewAbove(old(Current()), updates)
      ensures updateMap.Keys == old(updateMap.Keys) + Members(updates)
      ensures tqueueOffset == OffsetAfter(old(tqueueOffset), old(highest), updates)
      ensures tqueueEmpty == old(tqueueEmpty) && tqueue == old(tqueue)
    {
      hide Valid, IsBatch, Follows, NextToLoad, Load, Live, Current, CurrentBook, CurrentLife, NewAbove, OffsetAfter,
           Members;
      ghost var s0 := Current();
      ValidInv();
      Fields();
      Highest();
      FollowsStart(s0, limit, updates);
      for i := 0 to |updates|
        invariant Valid() && Follows(s0, Current(), limit, updates, i)
        invariant old(trace) <= trace && CurrentLife() == old(CurrentLife())
      {
        ValidInv();
        Fields();
        if updates[i] !in updateMap {
          FollowsLoad(s0, Current(), limit, updates, i);
          LoadNext(updates[i]);
        } else {
          FollowsSkip(s0, Current(), limit, updates, i);
        }
      }
      Fields();
      Highest();
      FollowsEnd(s0, Current(), limit, updates);
    }

    /** Set the offset to the head of the log. */
    method Rewind()
      requires Valid()
      modifies `tqueueOffset, `trace
      ensures Valid() && trace == old(trace) + [Rewound(tqueueOffset)] && CurrentLife() == old(CurrentLife())
      ensures Current() == old(Current()).(offset := tqueueOffset)
      ensures forall id | id in tqueue :: tqueueOffset <= id
      ensures tqueueOffset == NO_EVENT ==> tqueue == map[]
    {
      hide Inv, Traced, CurrentLife, Bounded, Talks;
      ghost var s := Current();
      ValidInv();
      LoaderLimits(s);
      tqueueOffset := GetHead();
      Record(s, Rewound(tqueueOffset));
    }

    method MarkDrained(ghost limit: nat)
      requires Valid() && 0 < limit && IsBatch(Current(), Current().offset, limit, [])
      modifies `tqueueEmpty, `trace
      ensures Valid() && tqueueEmpty && trace == old(trace) + [Drained] && CurrentLife() == old(CurrentLife())
      ensures Current() == old(Current()).(drained := true)
      ensures IsBatch(Current(), Current().offset, limit, [])
    {
      hide Inv, Traced, CurrentLife, Bounded, Talks, Enabled, Apply, IsBatch;
      ghost var s := Current();
      ValidInv();
      DrainSteps(s, limit);
      tqueueEmpty := true;
      Record(s, Drained);
    }

    /** Ask the log for a batch from the offset, or from its head when the log
        refuses the offset. */
    method AskLog(limit: nat) returns (updates: seq<int>, totalSize: nat)
      requires Valid()
      modifies `tqueueOffset, `trace
      ensures Valid() && old(trace) <= trace && CurrentLife() == old(CurrentLife())
      ensures Current() == old(Current()).(offset := tqueueOffset) && IsBatch(Current(), tqueueOffset, limit, updates)
      ensures tqueueOffset == old(tqueueOffset) || forall id | id in tqueue :: tqueueOffset <= id
      ensures tqueueOffset != old(tqueueOffset) ==> exists id | id in tqueue :: id < old(tqueueOffset)
      ensures |updates| <= totalSize <= |tqueue|
    {
      hide Valid, IsBatch, CurrentLife, CurrentBook;
      var failed;
      failed, updates := GetEvents(tqueueOffset, limit);
      if failed {
        Rewind();
        failed, updates := GetEvents(tqueueOffset, limit);
        assert !failed;
      }
      BatchInLog(Current(), tqueueOffset, limit, updates);
      totalSize :| |updates| <= totalSize <= |tqueue|;
    }

    /** Ask the log for a batch, from its head when the offset is unset. */
    method FetchUpdates(limit: nat) returns (updates: seq<int>, totalSize: nat)
      requires Valid() && 0 < limit
      modifies `clock, `unixTimeDifference, `tqueueOffset, `tqueueEmpty, `trace
      ensures Valid() && old(trace) <= trace && CurrentLife() == old(CurrentLife())
      ensures Current() == old(Current()).(now := clock, unixDiff := unixTimeDifference, offset := tqueueOffset,
                                           drained := tqueueEmpty)
      ensures IsBatch(Current(), Current().offset, limit, updates)
      ensures tqueueOffset == old(tqueueOffset) || forall id | id in tqueue :: tqueueOffset <= id
      ensures tqueueOffset != old(tqueueOffset) && old(tqueueOffset) != NO_EVENT ==>
                exists id | id in tqueue :: id < old(tqueueOffset)
      ensures tqueueEmpty <==> old(tqueueEmpty) || updates == []
      ensures |updates| <= totalSize <= |tqueue| && old(clock) <= clock
    {
      hide Valid, IsBatch, Current, CurrentBook, CurrentLife;
      Fields();
      if tqueueOffset == NO_EVENT {
        Rewind();
      }
      var now := Now();
      totalSize := 0;
      updates := [];
      Fields();
      if tqueueOffset == NO_EVENT {
        EmptyBatch(Current(), limit);
      } else {
        updates, totalSize := AskLog(limit);
      }
      if updates == [] {
        MarkDrained(limit);
      }
    }

    /** Tell the owner when everything that was waiting has been loaded. */
    method TellSuccess(returned: nat, totalSize: nat)
      requires Valid() && Running(CurrentLife())
      modifies `messages, `loads
      ensures Valid() && Current() == old(Current())
      ensures CurrentLife() ==
              Hear(old(CurrentLife()), LogAnswer(returned, totalSize, lastUpdateWasSuccessful, old(wasChecked)))
      ensures loads == old(loads) + [LogAnswer(returned, totalSize, lastUpdateWasSuccessful, wasChecked)]
      ensures messages == if returned == totalSize && lastUpdateWasSuccessful then old(messages) + [WebhookSuccess]
                          else old(messages)
    {
      hide Inv, Traced, Fits, Current, CurrentBook;
      HearFits(CurrentLife(), Current(), LogAnswer(returned, totalSize, lastUpdateWasSuccessful, wasChecked));
      loads := loads + [LogAnswer(returned, totalSize, lastUpdateWasSuccessful, wasChecked)];
      if returned == totalSize && lastUpdateWasSuccessful {
        Tell(WebhookSuccess);
      }
    }

    /** Unless the log is known to be exhausted or the actor is full, load a whole
        batch, and tell the owner if it was all that waits. */
    method LoadUpdates()
      returns (ghost offset: int, ghost limit: nat, batch: seq<int>, totalSize: nat)
      requires Valid() && Running(CurrentLife())
      modifies `clock, `unixTimeDifference, `tqueueOffset, `tqueueEmpty, `updateMap, `queueUpdates, `queues,
               `uniqueQueueId, `highest, `trace, `messages, `loads
      ensures Valid() && old(trace) <= trace && old(loads) <= loads && old(clock) <= clock
      ensures tqueueEmpty || updateMap.Keys != {} || queueUpdates != map[]
      ensures if old(!tqueueEmpty && |queueUpdates| < maxLoadedUpdates) then
                && limit <= 1000 && limit <= maxLoadedUpdates - old(|queueUpdates|)
                && (limit == 1000 || limit == maxLoadedUpdates - old(|queueUpdates|))
                && LoadsBatch(old(Current()), Current(), offset, limit, batch) && |batch| <= totalSize <= |tqueue|
                && CurrentLife() == Hear(old(CurrentLife()),
                                         LogAnswer(|batch|, totalSize, lastUpdateWasSuccessful, old(wasChecked)))
              else Current() == old(Current()) && CurrentLife() == old(CurrentLife())
    {
      hide Valid, LoadsBatch, Hear, Current, CurrentBook, CurrentLife;
      offset, limit, batch, totalSize := tqueueOffset, 0, [], 0;
      if tqueueEmpty {
        return;
      }
      LoadLimits();
      if |queueUpdates| >= maxLoadedUpdates {
        assert |queueUpdates| == maxLoadedUpdates;
        return;
      }
      var room := MinNat(TQUEUE_EVENT_BUFFER_SIZE, maxLoadedUpdates - |queueUpdates|);
      limit := room;
      offset, batch, totalSize := LoadBatch(room);
      LifeFields();
      TellSuccess(|batch|, totalSize);
    }

    lemma LoadLimits()
      requires Valid()
      ensures |queueUpdates| <= maxLoadedUpdates && 0 < maxLoadedUpdates
    {
      hide Inv, Traced;
      ValidInv();
      Fields();
      LoaderLimits(Current());
      LimitPositive(CurrentLife(), Current());
    }

    /** The middle part of `load_updates`: ask the log, and load what it gives. */
    method LoadBatch(limit: nat) returns (ghost offset: int, updates: seq<int>, totalSize: nat)
      requires Valid() && Running(CurrentLife()) && !tqueueEmpty
      requires 0 < limit <= maxLoadedUpdates - |queueUpdates|
      modifies `clock, `unixTimeDifference, `tqueueOffset, `tqueueEmpty, `updateMap, `queueUpdates, `queues,
               `uniqueQueueId, `highest, `trace
      ensures Valid() && old(trace) <= trace && old(clock) <= clock && (tqueueEmpty || updateMap.Keys != {})
      ensures LoadsBatch(old(Current()), Current(), offset, limit, updates) && |updates| <= totalSize <= |tqueue|
      ensures CurrentLife() == old(CurrentLife())
    {
      hide Inv, Traced, Fits, IsBatch, LoadsBatch, NewAbove, OffsetAfter, Members, Current, CurrentBook, CurrentLife;
      Fields();
      Highest();
      updates, totalSize := FetchUpdates(limit);
      offset := tqueueOffset;
      ghost var asked := Current();
      Fields();
      LoadAll(updates, limit);
      Fields();
      ValidInv();
      LoaderLimits(Current());
      SameAbove(old(Current()), asked, updates);
      BatchLoaded(old(Current()), Current(), offset, limit, updates);
      SomethingLoaded(old(Current()), Current(), offset, limit, updates);
    }

    // ---------- Answers ----------

    method DropEvent(eventId: int)
      requires QueuesHoldUpdates(Current().book) && IsHead(Current().book, eventId)
      modifies `updateMap, `queueUpdates, `queues, `tqueue
      ensures Current() == Scheduler.DropEvent(old(Current()), eventId)
    {
      var queueId := updateMap[eventId].queueId;
      assert QueueHolds(updateMap, queueId, queueUpdates[queueId]);
      assert queueUpdates[queueId] != [] && eventId == queueUpdates[queueId][0];
      var rest := queueUpdates[queueId][1..];
      assert rest != [] ==> rest[0] in queueUpdates[queueId] && rest[0] != eventId;
      updateMap := updateMap - {eventId};
      if rest == [] {
        queueUpdates := queueUpdates - {queueId};
      } else {
        queueUpdates := queueUpdates[queueId := rest];
        var update := updateMap[rest[0]];
        queues := queues + {Queue(update.wakeupAt, update.queueId)};
      }
      tqueue := tqueue - {eventId};
    }

    /** The clock has been read once since the method began, and `s` was the state
        of the scheduler then. */
    twostate predicate JustTicked(s: State)
      reads `start, `trace
    {
      && s == old(Current()).(now := s.now, unixDiff := s.unixDiff)
      && old(Current()).now <= s.now
      && trace == old(trace) + [Ticked(s.now, s.unixDiff)]
      && Traced(start, trace, s)
    }

    method OnUpdateOk(eventId: int) returns (ghost s: State)
      requires Valid() && QueuesHoldUpdates(Current().book) && IsHead(Current().book, eventId)
      modifies `clock, `unixTimeDifference, `trace, `updateMap, `queueUpdates, `queues, `tqueue,
               `lastUpdateWasSuccessful, `lastSuccessTime
      ensures JustTicked(s) && Fits(CurrentLife(), s) && CurrentLife() == old(CurrentLife())
      ensures QueuesHoldUpdates(s.book) && IsHead(s.book, eventId)
      ensures Current() == Scheduler.DropEvent(s, eventId)
      ensures lastUpdateWasSuccessful && lastSuccessTime == s.now
    {
      hide Inv, Traced, Fits, Current, CurrentBook, CurrentLife, QueuesHoldUpdates, IsHead, Scheduler.DropEvent;
      lastUpdateWasSuccessful := true;
      lastSuccessTime := Now();
      s := Current();
      DropEvent(eventId);
    }

    /** `on_update_error` once the clock has been read: drop the update, or put it
        back with its new delay. */
    method DropOrDelay(eventId: int, retryAfter: int) returns (ghost f: Failure)
      requires QueuesHoldUpdates(Current().book) && IsHead(Current().book, eventId)
      modifies `updateMap, `queueUpdates, `queues, `tqueue
      ensures Drawable(f) && f.retryAfter == retryAfter
      ensures Current() == AfterError(old(Current()), eventId, f)
    {
      hide QueuesHoldUpdates, Scheduler.DropEvent;
      var update := updateMap[eventId];
      var wait := Clamp(retryAfter, 0, MAX_RETRY_AFTER);
      var nextDelay := update.backoff.delay;
      var maxTimeout := WEBHOOK_MAX_RESEND_TIMEOUT;
      if wait == 0 && update.backoff.failCount > 0 {
        maxTimeout :| WEBHOOK_MAX_RESEND_TIMEOUT <= maxTimeout <= 2 * WEBHOOK_MAX_RESEND_TIMEOUT;
        nextDelay := Min(maxTimeout, nextDelay * 2);
        wait := nextDelay;
      }
      f := Failure(retryAfter, maxTimeout);
      if UnixTime(unixTimeDifference, clock) + wait > update.expiresAt {
        DropEvent(eventId);
      } else {
        var later := clock + wait * NANOS;
        updateMap := updateMap[eventId := update.(backoff := Backoff(nextDelay, update.backoff.failCount + 1),
                                                  wakeupAt := later)];
        queues := queues + {Queue(later, update.queueId)};
      }
    }

    method OnUpdateError(eventId: int, retryAfter: int) returns (ghost s: State, ghost f: Failure, ghost wait: int)
      requires Valid() && QueuesHoldUpdates(Current().book) && IsHead(Current().book, eventId)
      modifies `clock, `unixTimeDifference, `trace, `updateMap, `queueUpdates, `queues, `tqueue,
               `lastUpdateWasSuccessful
      ensures JustTicked(s) && Fits(CurrentLife(), s) && CurrentLife() == old(CurrentLife())
      ensures QueuesHoldUpdates(s.book) && IsHead(s.book, eventId)
      ensures Drawable(f) && f.retryAfter == retryAfter
      ensures Current() == AfterError(s, eventId, f)
      ensures !lastUpdateWasSuccessful && old(clock) <= clock
      ensures var u := old(updateMap[eventId]);
        && WaitFits(u.backoff, retryAfter, wait)
        && (if UnixTime(unixTimeDifference, clock) + wait > u.expiresAt
            then eventId !in updateMap && eventId !in tqueue
            else && tqueue == old(tqueue) && queueUpdates == old(queueUpdates)
                 && eventId in updateMap && updateMap[eventId].wakeupAt == clock + wait * NANOS
                 && Queue(clock + wait * NANOS, u.queueId) in queues)
    {
      hide Inv, Traced, Fits, Current, CurrentBook, CurrentLife, QueuesHoldUpdates, IsHead, AfterError;
      lastUpdateWasSuccessful := false;
      Fields();
      var now := Now();
      s := Current();
      Fields();
      f := DropOrDelay(eventId, retryAfter);
      Fields();
      wait := AfterErrorWaits(s, eventId, f);
    }

    /** A connection carries nothing any more: it is on the ready list, or gone. */
    twostate predicate Freed(connectionId: int, keep: bool)
      reads `connections, `readyConnections
    {
      && connectionId in old(connections)
      && (if keep then && connections == old(connections)[connectionId := old(connections[connectionId]).(eventId := NO_EVENT)]
                       && readyConnections == old(readyConnections) + {connectionId}
          else connections == old(connections) - {connectionId} && readyConnections == old(readyConnections) - {connectionId})
    }

    /** Let the connection go: back to the ready list, or away. */
    method ReleaseCarrier(connectionId: int, keep: bool)
      requires connectionId in connections && connectionId !in readyConnections
      modifies `connections, `readyConnections
      ensures Current() == old(Current()).(book := Release(old(Current()).book, connectionId, keep))
      ensures CurrentLife() == old(CurrentLife()) && Freed(connectionId, keep)
    {
      if keep {
        connections := connections[connectionId := connections[connectionId].(eventId := NO_EVENT)];
        readyConnections := readyConnections + {connectionId};
      } else {
        connections := connections - {connectionId};
      }
    }

    /** The carried update has been dealt with; letting its connection go completes
        step `e` from state `s`. */
    method Settle(ghost s: State, ghost e: Step, connectionId: int, keep: bool)
      requires Traced(start, trace, s) && Enabled(s, e) && Fits(CurrentLife(), s)
      requires connectionId in s.book.connections && SameConnections(s, Current())
      requires connectionId !in readyConnections
      requires Apply(s, e) == Released(Current(), connectionId, keep)
      modifies `connections, `readyConnections, `trace
      ensures Valid() && trace == old(trace) + [e] && CurrentLife() == old(CurrentLife())
      ensures Current() == Apply(s, e) && Freed(connectionId, keep)
    {
      hide Inv, Traced, Fits, Enabled, Apply, Current, CurrentBook, CurrentLife;
      Fields();
      ReleaseCarrier(connectionId, keep);
      FewerConnectionsFit(CurrentLife(), s, Current());
      Record(s, e);
    }

    method AnswerOk(connectionId: int, keep: bool) returns (ghost e: Step)
      requires Valid() && connectionId in connections && connections[connectionId].eventId != NO_EVENT
      modifies `clock, `unixTimeDifference, `trace, `updateMap, `queueUpdates, `queues, `tqueue,
               `lastUpdateWasSuccessful, `lastSuccessTime, `connections, `readyConnections
      ensures Valid() && CurrentLife() == old(CurrentLife())
      ensures Adds(old(trace), trace, e)
      ensures e.Succeeded? && e.conn == connectionId && e.id == old(connections[connectionId].eventId) && e.keep == keep
      ensures lastUpdateWasSuccessful && Freed(connectionId, keep)
    {
      hide Inv, Traced, Fits, Enabled, Apply, Current, CurrentBook, CurrentLife, QueuesHoldUpdates, IsHead,
           Scheduler.DropEvent, AfterError, FailureStep, Released, Carried, SameConnections;
      var eventId := connections[connectionId].eventId;
      Fields();
      ValidInv();
      CarriedFacts(Current(), connectionId);
      ghost var s := OnUpdateOk(eventId);
      e := Succeeded(connectionId, eventId, s.book.updates[eventId].queueId, keep);
      assert Inv(s) by { TracedInv(start, trace, s); }
      CarriedFacts(s, connectionId);
      SuccessSteps(s, connectionId, eventId, keep);
      Settle(s, e, connectionId, keep);
    }

    method AnswerError(connectionId: int, retryAfter: int, keep: bool) returns (ghost e: Step)
      requires Valid() && connectionId in connections && connections[connectionId].eventId != NO_EVENT
      modifies `clock, `unixTimeDifference, `trace, `updateMap, `queueUpdates, `queues, `tqueue,
               `lastUpdateWasSuccessful, `connections, `readyConnections
      ensures Valid() && CurrentLife() == old(CurrentLife())
      ensures Adds(old(trace), trace, e)
      ensures Ends(e, connectionId, old(connections[connectionId].eventId), keep, false, retryAfter)
      ensures !lastUpdateWasSuccessful && Freed(connectionId, keep)
    {
      hide Inv, Traced, Fits, Enabled, Apply, Current, CurrentBook, CurrentLife, QueuesHoldUpdates, IsHead,
           Scheduler.DropEvent, AfterError, FailureStep, Released, Carried, SameConnections;
      var eventId := connections[connectionId].eventId;
      Fields();
      ValidInv();
      CarriedFacts(Current(), connectionId);
      ghost var s, f, wait := OnUpdateError(eventId, retryAfter);
      assert Inv(s) by { TracedInv(start, trace, s); }
      CarriedFacts(s, connectionId);
      e := FailureStep(s, connectionId, eventId, f, keep);
      FailureSteps(s, connectionId, eventId, f, keep);
      Settle(s, e, connectionId, keep);
    }

    /** Whether the webhook has answered 410 for almost a day; the time of the
        first such answer is kept while they follow each other. */
    method CheckGone(code: int) returns (needClose: bool)
      requires Valid()
      modifies `clock, `unixTimeDifference, `trace, `firstError410Time
      ensures Valid() && old(trace) <= trace && CurrentLife() == old(CurrentLife())
      ensures Current().book == old(Current()).book
      ensures code == 410 ==> trace == old(trace) + [Ticked(clock, unixTimeDifference)] && old(clock) <= clock
      ensures firstError410Time == if code != 410 then 0
                                   else if old(firstError410Time) == 0 then clock else old(firstError410Time)
      ensures needClose <==> code == 410 && old(firstError410Time) != 0
                             && clock > old(firstError410Time) + 23 * 3600 * NANOS
    {
      hide Inv, Traced, Fits, Current, CurrentBook, CurrentLife;
      needClose := false;
      Fields();
      if code == 410 {
        var now := Now();
        if firstError410Time == 0 {
          firstError410Time := now;
        } else {
          needClose := now > firstError410Time + WEBHOOK_DROP_TIMEOUT * NANOS;
        }
      } else {
        firstError410Time := 0;
      }
    }

    /** The first part of `handle`: what the response says, and to whom it is told. */
    method ReadResponse(r: Response) returns (needClose: bool)
      requires Valid() && wasChecked
      modifies `clock, `unixTimeDifference, `trace, `firstError410Time, `messages
      ensures Valid() && old(trace) <= trace && Current().book == old(Current()).book
      ensures CurrentLife() == if !r.Ok() then SayError(old(CurrentLife()))
                               else if r.requestsMethod then Say(old(CurrentLife()), SendQuery)
                               else old(CurrentLife())
      ensures callbackAlive ==>
                messages == old(messages) + (if !r.isResponse || !(200 <= r.code <= 299) then [WebhookError]
                                             else if r.requestsMethod then [SendQuery] else [])
      ensures r.isResponse && r.code == 410 ==> |old(trace)| < |trace| && trace[|old(trace)|].Ticked?
      ensures var now := Reading(trace, |old(trace)|);
        && (needClose <==> GoneTooLong(Some(r), old(firstError410Time), now))
        && firstError410Time == FirstGone(Some(r), old(firstError410Time), now)
    {
      hide Inv, Traced, Fits, Current, CurrentBook, CurrentLife;
      needClose := false;
      if r.isResponse {
        if 200 <= r.code <= 299 {
          if r.requestsMethod {
            LifeFields();
            SayFits(CurrentLife(), Current(), SendQuery);
            Tell(SendQuery);
          }
          firstError410Time := 0;
        } else {
          needClose := CheckGone(r.code);
          OnWebhookError();
        }
      } else {
        OnWebhookError();
      }
    }

    method CloseIdle(connectionId: int)
      requires Valid() && connectionId in connections && connections[connectionId].eventId == NO_EVENT
      modifies `connections, `readyConnections, `trace
      ensures Valid() && trace == old(trace) + [Closed(connectionId)] && CurrentLife() == old(CurrentLife())
      ensures Freed(connectionId, false)
    {
      hide Inv, Traced, Fits, Enabled, Apply, CurrentLife;
      ghost var s := Current();
      ValidInv();
      CloseSteps(s, connectionId);
      connections := connections - {connectionId};
      readyConnections := readyConnections - {connectionId};
      FewerConnectionsFit(CurrentLife(), s, Current());
      Record(s, Closed(connectionId));
    }

    /** `handle`, up to closing the actor or looping. A response comes only on a
        connection with a request in flight. */
    method HandleAnswer(connectionId: int, response: Option<Response>) returns (needClose: bool, ghost e: Step)
      requires Valid() && connectionId in connections
      requires response.Some? ==> connections[connectionId].eventId != NO_EVENT
      modifies `clock, `unixTimeDifference, `trace, `updateMap, `queueUpdates, `queues, `tqueue,
               `lastUpdateWasSuccessful, `lastSuccessTime, `connections, `readyConnections,
               `firstError410Time, `messages
      ensures Valid() && Adds(old(trace), trace, e)
      ensures CurrentLife() == match response
                case None => old(CurrentLife())
                case Some(r) => if !r.Ok() then SayError(old(CurrentLife()))
                                else if r.requestsMethod then Say(old(CurrentLife()), SendQuery)
                                else old(CurrentLife())
      ensures callbackAlive ==>
                messages == old(messages)
                            + if response.None? then []
                              else if !response.value.isResponse || !(200 <= response.value.code <= 299)
                              then [WebhookError]
                              else if response.value.requestsMethod then [SendQuery] else []
      ensures IsGone(response) ==> |old(trace)| < |trace| && trace[|old(trace)|].Ticked?
      ensures var now := Reading(trace, |old(trace)|);
        && (needClose <==> GoneTooLong(response, old(firstError410Time), now))
        && firstError410Time == FirstGone(response, old(firstError410Time), now)
      ensures Answered(e, connectionId, old(connections[connectionId]), response, ipGeneration, needClose)
      ensures Freed(connectionId, response.Some? && response.value.isResponse && response.value.keepAlive
                                  && old(connections[connectionId]).ipGeneration == ipGeneration && !needClose)
    {
      hide Inv, Traced, Fits, Current, CurrentBook, CurrentLife, Concludes;
      var closeConnection := true;
      needClose := false;
      Fields();
      ConnectedIsChecked(CurrentLife(), Current(), connectionId);
      match response {
        case Some(r) =>
          closeConnection := !r.isResponse || !r.keepAlive || ipGeneration != connections[connectionId].ipGeneration;
          LifeFields();
          needClose := ReadResponse(r);
        case None =>
      }
      var keep := !needClose && !closeConnection;
      e := EndDelivery(connectionId, response, keep);
    }

    /** The delivery that the connection carries ends, and the connection is let go. */
    method EndDelivery(connectionId: int, response: Option<Response>, keep: bool) returns (ghost e: Step)
      requires Valid() && connectionId in connections
      requires response.Some? ==> connections[connectionId].eventId != NO_EVENT
      requires keep ==> response.Some?
      modifies `clock, `unixTimeDifference, `trace, `updateMap, `queueUpdates, `queues, `tqueue,
               `lastUpdateWasSuccessful, `lastSuccessTime, `connections, `readyConnections
      ensures Valid() && Adds(old(trace), trace, e) && CurrentLife() == old(CurrentLife())
      ensures Concludes(e, connectionId, old(connections[connectionId].eventId), response, keep)
      ensures Freed(connectionId, keep)
    {
      hide Valid, Freed, Current, CurrentBook, CurrentLife;
      if connections[connectionId].eventId != NO_EVENT {
        if response.Some? && response.value.Ok() {
          e := AnswerOk(connectionId, keep);
        } else {
          var retryAfter := if response.Some? && response.value.isResponse then response.value.retryAfter else 0;
          e := AnswerError(connectionId, retryAfter, keep);
        }
      } else {
        assert response.None?;
        CloseIdle(connectionId);
        e := Closed(connectionId);
      }
    }

    // ---------- Sending ----------

    /** Take the first entry out of the index and note the send time of its head. */
    method TakeFirst(it: Queue) returns (eventId: int)
      requires it.id in queueUpdates && queueUpdates[it.id] != [] && queueUpdates[it.id][0] in updateMap
      requires Key(updateMap, queueUpdates[it.id][0]) == it
      modifies `queues, `updateMap
      ensures eventId == old(queueUpdates[it.id][0]) && updateMap.Keys == old(updateMap.Keys)
      ensures updateMap[eventId].lastSendTime == clock && it !in queues
      ensures Current() == old(Current()).(book := Take(old(Current()).book, eventId, clock))
    {
      var queueId := it.id;
      queues := queues - {it};
      eventId := queueUpdates[queueId][0];
      updateMap := updateMap[eventId := updateMap[eventId].(lastSendTime := clock)];
    }

    method WriteRequest(connectionId: int, eventId: int)
      requires connectionId in connections
      modifies `connections, `readyConnections
      ensures var b := old(Current()).book;
        var c := b.connections[connectionId].(eventId := eventId);
        Current() == old(Current()).(book := b.(connections := b.connections[connectionId := c],
                                                ready := b.ready - {connectionId}))
    {
      connections := connections[connectionId := connections[connectionId].(eventId := eventId)];
      readyConnections := readyConnections - {connectionId};
    }

    /** The second half of sending: the first entry of the index is due. */
    method SendFirst(it: Queue) returns (ok: bool)
      requires Valid() && IsFirst(queues, it) && it.wakeupAt <= clock && readyConnections != {}
      modifies `trace, `queues, `updateMap, `connections, `readyConnections, `parked
      ensures Valid() && CurrentLife() == old(CurrentLife()) && |old(trace)| < |trace| && old(trace) <= trace
      ensures updateMap.Keys == old(updateMap.Keys) && connections.Keys == old(connections.Keys)
      ensures old(parked) <= parked
      ensures ok ==> |readyConnections| < old(|readyConnections|) && parked == old(parked)
                     && trace[|trace| - 1].Sent? && trace[|trace| - 1].id == old(Current()).book.queueUpdates[it.id][0]
      ensures !ok ==> readyConnections == old(readyConnections) && parked != old(parked)
                      && trace[|trace| - 1].Parked?
    {
      hide Inv, Traced, Fits, Enabled, Apply, CurrentLife, Current, CurrentBook;
      ghost var s := Current();
      Fields();
      ValidInv();
      FirstIsHead(s, it);
      assert it.id != 0 && queueUpdates[it.id][0] != NO_EVENT;
      var eventId := TakeFirst(it);
      ok :| true;
      if ok {
        UseConnection(s, eventId);
      } else {
        GiveUp(s, eventId, it.id);
      }
    }

    /** The request is written to an idle connection. */
    method UseConnection(ghost s: State, eventId: int)
      requires Traced(start, trace, s) && Due(s, eventId) && Fits(CurrentLife(), s) && readyConnections != {}
      requires Current() == s.(book := Take(s.book, eventId, s.now))
      modifies `trace, `connections, `readyConnections
      ensures Valid() && CurrentLife() == old(CurrentLife()) && connections.Keys == old(connections.Keys)
      ensures |readyConnections| < old(|readyConnections|) && |trace| == |old(trace)| + 1 && old(trace) <= trace
      ensures trace[|trace| - 1].Sent? && trace[|trace| - 1].id == eventId
    {
      hide Inv, Traced, Fits, Enabled, Apply, CurrentLife, Current, CurrentBook, Due;
      ghost var some := Pick(readyConnections);
      var connectionId :| connectionId in readyConnections;
      Fields();
      assert Inv(s) by { TracedInv(start, trace, s); }
      SendSteps(s, connectionId, eventId);
      WriteRequest(connectionId, eventId);
      Fields();
      SameConnectionsFit(CurrentLife(), s, Current());
      Record(s, Sent(connectionId, eventId));
    }

    /** The headers could not be built: the queue is left out of the index. */
    method GiveUp(ghost s: State, ghost eventId: int, ghost queueId: int)
      requires Traced(start, trace, s) && Due(s, eventId) && Fits(CurrentLife(), s) && readyConnections != {}
      requires Current() == s.(book := Take(s.book, eventId, s.now))
      requires queueId == s.book.updates[eventId].queueId && queueId !in parked
      modifies `trace, `parked
      ensures Valid() && CurrentLife() == old(CurrentLife()) && parked == old(parked) + {queueId}
      ensures |trace| == |old(trace)| + 1 && old(trace) <= trace && trace[|trace| - 1].Parked?
    {
      hide Inv, Traced, Fits, Enabled, Apply, CurrentLife, Current, CurrentBook, Due;
      Fields();
      assert Inv(s) by { TracedInv(start, trace, s); }
      SendSteps(s, Pick(readyConnections), eventId);
      NoteParked(queueId);
      Fields();
      SameConnectionsFit(CurrentLife(), s, Current());
      Record(s, Parked(eventId));
    }

    ghost method NoteParked(queueId: int)
      modifies `parked
      ensures Current() == old(Current()).(book := old(Current()).book.(parked := old(Current()).book.parked + {queueId}))
      ensures CurrentLife() == old(CurrentLife())
    {
      parked := parked + {queueId};
    }

    method SendUpdate() returns (outcome: SendOutcome)
      requires Valid()
      modifies `clock, `unixTimeDifference, `trace, `queues, `updateMap, `connections, `readyConnections,
               `parked, `wakeupAt
      ensures Valid() && old(trace) <= trace
      ensures updateMap.Keys == old(updateMap.Keys) && connections.Keys == old(connections.Keys)
      ensures CurrentLife() == old(CurrentLife()).(wakeupAt := wakeupAt) && KeepsTimer(old(wakeupAt), wakeupAt, old(clock))
      ensures outcome == SentOne ==>
                |readyConnections| < old(|readyConnections|) && |old(trace)| < |trace| && trace[|trace| - 1].Sent?
      ensures outcome != SentOne ==> readyConnections == old(readyConnections)
      ensures old(parked) <= parked && (outcome == HeaderError <==> parked != old(parked))
      ensures outcome == HeaderError ==> readyConnections != {} && trace != [] && trace[|trace| - 1].Parked?
      ensures outcome in {NoConnection, NoPending, NotReady} ==> Served(Current().book, wakeupAt) && NothingDue()
      ensures old(clock) <= clock
    {
      hide Valid, Served, IsFirst, KeepsTimer, CurrentLife, Current, CurrentBook;
      LifeFields();
      KeptTimer();
      if readyConnections == {} {
        NothingToSend();
        return NoConnection;
      }
      if queues == {} {
        NothingToSend();
        return NoPending;
      }
      var it := FirstEntry();
      outcome := SendIfDue(it);
    }

    /** Send the first entry of the index, or set the timer for it. */
    method SendIfDue(it: Queue) returns (outcome: SendOutcome)
      requires Valid() && readyConnections != {} && IsFirst(queues, it)
      modifies `clock, `unixTimeDifference, `trace, `queues, `updateMap, `connections, `readyConnections,
               `parked, `wakeupAt
      ensures Valid() && old(trace) <= trace && outcome != NoConnection && outcome != NoPending
      ensures outcome == HeaderError ==> trace != [] && trace[|trace| - 1].Parked?
      ensures updateMap.Keys == old(updateMap.Keys) && connections.Keys == old(connections.Keys)
      ensures CurrentLife() == old(CurrentLife()).(wakeupAt := wakeupAt) && KeepsTimer(old(wakeupAt), wakeupAt, old(clock))
      ensures outcome == SentOne ==>
                |readyConnections| < old(|readyConnections|) && |old(trace)| < |trace| && trace[|trace| - 1].Sent?
      ensures outcome != SentOne ==> readyConnections == old(readyConnections)
      ensures old(parked) <= parked && (outcome == HeaderError <==> parked != old(parked))
      ensures outcome == NotReady ==> Served(Current().book, wakeupAt) && NothingDue()
      ensures old(clock) <= clock
    {
      hide Valid, Served, IsFirst, KeepsTimer, CurrentLife, Current, CurrentBook, NothingDue;
      LifeFields();
      Fields();
      KeptTimer();
      ghost var before, began := wakeupAt, clock;
      var now := Now();
      if it.wakeupAt > now {
        NotDueYet(it);
        WaitForFirst(it);
        TimerKeptLater(before, before, wakeupAt, began, clock);
        outcome := NotReady;
      } else {
        var ok := SendFirst(it);
        outcome := if ok then SentOne else HeaderError;
      }
    }

    method FirstEntry() returns (it: Queue)
      requires queues != {}
      ensures IsFirst(queues, it)
    {
      ghost var first := FirstExists(queues);
      it :| it in queues && forall o | o in queues :: NotAfter(it, o);
    }

    /** The timer wakes the actor when the first entry is due. */
    method WaitForFirst(it: Queue)
      requires Valid() && IsFirst(queues, it) && clock < it.wakeupAt
      modifies `wakeupAt
      ensures Valid() && CurrentLife() == old(CurrentLife()).(wakeupAt := wakeupAt)
      ensures KeepsTimer(old(wakeupAt), wakeupAt, clock) && Served(Current().book, wakeupAt)
      ensures wakeupAt in {old(wakeupAt), it.wakeupAt}
    {
      hide Traced, Fits, CurrentLife, IsFirst;
      WakeupFits(CurrentLife(), Current(), 0);
      RelaxWakeupAt(it.wakeupAt);
    }

    /** No update that is due is left while a connection is idle. */
    ghost predicate NothingDue()
      reads `clock, `queues, `readyConnections
    {
      readyConnections == {} || forall e | e in queues :: clock < e.wakeupAt
    }

    lemma NotDueYet(it: Queue)
      requires IsFirst(queues, it) && clock < it.wakeupAt
      ensures NothingDue()
    {
    }

    lemma NothingToSend()
      requires readyConnections == {} || queues == {}
      ensures forall timer :: Served(Current().book, timer)
    {
    }

    lemma KeptTimer()
      ensures forall now :: KeepsTimer(wakeupAt, wakeupAt, now)
    {
    }

    method SendUpdates() returns (outcome: SendOutcome)
      requires Valid()
      modifies `clock, `unixTimeDifference, `trace, `queues, `updateMap, `connections, `readyConnections,
               `parked, `wakeupAt
      ensures Valid() && old(trace) <= trace
      ensures updateMap.Keys == old(updateMap.Keys) && connections.Keys == old(connections.Keys)
      ensures CurrentLife() == old(CurrentLife()).(wakeupAt := wakeupAt) && KeepsTimer(old(wakeupAt), wakeupAt, old(clock))
      ensures old(parked) <= parked && (outcome == HeaderError <==> parked != old(parked))
      ensures outcome == HeaderError ==> readyConnections != {} && trace != [] && trace[|trace| - 1].Parked?
      ensures Served(Current().book, wakeupAt) <==> outcome != HeaderError || Timed(wakeupAt)
      ensures outcome != HeaderError ==> NothingDue()
      ensures old(clock) <= clock
    {
      hide Valid, Served, CurrentLife, Current, Timed, NothingDue;
      outcome := SendUpdate();
      while outcome == SentOne
        invariant Valid() && old(trace) <= trace
        invariant updateMap.Keys == old(updateMap.Keys) && connections.Keys == old(connections.Keys)
        invariant CurrentLife() == old(CurrentLife()).(wakeupAt := wakeupAt) && KeepsTimer(old(wakeupAt), wakeupAt, old(clock))
        invariant old(parked) <= parked && (outcome == HeaderError <==> parked != old(parked))
        invariant outcome == HeaderError ==> readyConnections != {} && trace != [] && trace[|trace| - 1].Parked?
        invariant outcome in {NoConnection, NoPending, NotReady} ==> Served(Current().book, wakeupAt) && NothingDue()
        invariant old(clock) <= clock
        decreases |readyConnections|, outcome == SentOne
      {
        outcome := SendUpdate();
      }
      if outcome == HeaderError {
        ServedIfTimed(wakeupAt);
      }
    }

    /** No entry of the index is earlier than the timer. */
    ghost predicate Timed(timer: int)
      reads `queues
    {
      forall e | e in queues :: 0 < timer <= e.wakeupAt
    }

    lemma ServedIfTimed(timer: int)
      requires readyConnections != {}
      ensures Served(Current().book, timer) <==> Timed(timer)
    {
      hide Served;
      ServedWhenTimed(Current().book, timer);
    }

    // ---------- Connections ----------

    /** There is one more connection, idle and of the present generation. */
    twostate predicate OneMoreConnection()
      reads `connections, `readyConnections, `nextId, `ipGeneration
    {
      && connections == old(connections)[old(nextId) := Connection(NO_EVENT, ipGeneration)]
      && readyConnections == old(readyConnections) + {old(nextId)}
    }

    method AddConnection()
      modifies `connections, `readyConnections, `nextId
      ensures nextId == old(nextId) + 1 && OneMoreConnection()
      ensures var s := old(Current());
        Current() == s.(book := DeliveryBook.Open(s.book, old(nextId), ipGeneration))
      ensures CurrentLife() == old(CurrentLife()).(nextId := nextId)
    {
      ghost var b := CurrentBook();
      connections := connections[nextId := Connection(NO_EVENT, ipGeneration)];
      readyConnections := readyConnections + {nextId};
      assert CurrentBook() == DeliveryBook.Open(b, nextId, ipGeneration);
      nextId := nextId + 1;
    }

    /** A new idle connection shows that the webhook can be reached. */
    method OpenConnection()
      requires Valid() && Running(CurrentLife()) && Room(CurrentLife(), Current()) > 0
      modifies `connections, `readyConnections, `nextId, `trace, `wasChecked, `messages
      ensures Valid() && |connections| == old(|connections|) + 1 && OneMoreConnection()
      ensures trace == old(trace) + [Opened(old(nextId), ipGeneration)]
      ensures var l := old(CurrentLife()); CurrentLife() == Check(l.(nextId := l.nextId + 1))
    {
      hide Inv, Traced, Fits, Enabled, Apply, Current, CurrentBook, CurrentLife, OneMoreConnection, Check;
      ghost var s, l := Current(), CurrentLife();
      ValidInv();
      Fields();
      LifeFields();
      OpenFits(l, s, ipGeneration);
      OpenSteps(s, nextId, ipGeneration);
      AddConnection();
      BecomeChecked();
      Fields();
      Record(s, Opened(l.nextId, ipGeneration));
    }

    /** `create_connection` on an open socket. */
    method CreateConnectionOn() returns (ok: bool)
      requires Valid() && Running(CurrentLife()) && Room(CurrentLife(), Current()) > 0 && (httpUrl || sslReady)
      modifies `connections, `readyConnections, `nextId, `trace, `wasChecked, `messages, `callbackAlive, `stopFlag
      ensures Valid() && old(trace) <= trace
      ensures ok ==> |connections| == old(|connections|) + 1 && OneMoreConnection()
      ensures ok ==> |trace| == |old(trace)| + 1 && trace[|old(trace)|].Opened?
      ensures !ok ==> connections == old(connections) && readyConnections == old(readyConnections) && trace == old(trace)
      ensures var l := old(CurrentLife());
        CurrentLife() == if ok then Check(l.(nextId := l.nextId + 1)) else Fail(SayError(l))
    {
      hide Inv, Traced, Fits, Current, CurrentBook, CurrentLife, Room;
      LifeFields();
      if !httpUrl {
        assert sslReady;
        ok :| true;
        if !ok {
          CreateWebhookError();
          return;
        }
      }
      OpenConnection();
      ok := true;
    }

    method AddPendingSocket()
      requires Valid() && Running(CurrentLife()) && Room(CurrentLife(), Current()) > 0
      modifies `pendingSockets, `nextId
      ensures Valid()
      ensures var l := old(CurrentLife());
        CurrentLife() == l.(pendingSockets := l.pendingSockets + {l.nextId}, nextId := l.nextId + 1)
    {
      hide Traced, Fits, Current, CurrentBook, Room;
      SocketFits(CurrentLife(), Current());
      pendingSockets := pendingSockets + {nextId};
      nextId := nextId + 1;
    }

    /** `create_connection`: through the proxy the socket comes later. */
    method CreateConnection() returns (ok: bool)
      requires Valid() && Running(CurrentLife()) && Room(CurrentLife(), Current()) > 0
      requires ipAddress != NoAddress && (httpUrl || sslReady)
      modifies `connections, `readyConnections, `pendingSockets, `nextId, `trace, `wasChecked, `messages,
               `callbackAlive, `stopFlag
      ensures Valid() && old(trace) <= trace && Connected(old(CurrentLife()), CurrentLife(), ok, proxied)
      ensures ok ==> |connections| == old(|connections|) + 1 && OneMoreConnection()
      ensures ok ==> |trace| == |old(trace)| + 1 && trace[|old(trace)|].Opened?
      ensures !ok ==> connections == old(connections) && readyConnections == old(readyConnections) && trace == old(trace)
    {
      hide Inv, Traced, Fits, Current, CurrentBook, CurrentLife, Room;
      assert ipAddress != NoAddress;
      LifeFields();
      var reachable: bool :| true;
      if !reachable {
        CreateWebhookError();
        return false;
      }
      if proxied {
        CheckFits(CurrentLife(), Current());
        RoomKept(CurrentLife(), Current());
        BecomeChecked();
        AddPendingSocket();
        return false;
      }
      ok := CreateConnectionOn();
    }

    /** The first loop of `create_new_connections`. */
    method OpenSockets(needConnections: int, now: int) returns (finished: bool)
      requires Valid() && Running(CurrentLife()) && ipAddress != NoAddress && (httpUrl || sslReady)
      requires needConnections <= maxConnections && 0 < now == clock
      modifies `connections, `readyConnections, `pendingSockets, `nextId, `trace, `wasChecked,
               `messages, `callbackAlive, `stopFlag, `wakeupAt
      ensures Valid() && old(trace) <= trace && !CurrentLife().stopped
      ensures if finished then Running(CurrentLife()) else 0 < wakeupAt <= now + NANOS
      ensures wakeupAt != 0 || |connections| + |pendingSockets| + readySockets >= needConnections
      ensures |connections| + |pendingSockets| + readySockets
              <= Most(old(|connections| + |pendingSockets| + readySockets), needConnections)
      ensures KeepsTimer(old(wakeupAt), wakeupAt, old(clock))
      ensures NewSocketsOnly(old(pendingSockets), old(nextId), pendingSockets)
    {
      hide Inv, Traced, Fits, Current, CurrentBook, CurrentLife, Connected;
      Fields();
      LifeFields();
      while |connections| + |pendingSockets| + readySockets < needConnections
        invariant Valid() && Running(CurrentLife()) && KeepsTimer(old(wakeupAt), wakeupAt, old(clock))
        invariant old(trace) <= trace
        invariant old(nextId) <= nextId && NewSocketsOnly(old(pendingSockets), old(nextId), pendingSockets)
        invariant |connections| + |pendingSockets| + readySockets
                  <= Most(old(|connections| + |pendingSockets| + readySockets), needConnections)
        decreases needConnections - |connections|
      {
        Fields();
        LifeFields();
        var floodWakeup: int :| true;
        if now < floodWakeup {
          RelaxWakeupAt(floodWakeup);
          break;
        }
        ghost var l, sockets := CurrentLife(), pendingSockets;
        var created := CreateConnection();
        ConnectedFields(l, CurrentLife(), created, proxied);
        LifeFields();
        NewSocketsCompose(old(pendingSockets), old(nextId), sockets, l.nextId, pendingSockets);
        if !created {
          RelaxWakeupAt(now + NANOS);
          return false;
        }
      }
      finished := true;
    }

    /** The second loop of `create_new_connections`; leftover sockets are closed. */
    method UseReadySockets(needConnections: int, now: int)
      requires Valid() && Running(CurrentLife()) && (httpUrl || sslReady) && needConnections <= maxConnections && 0 < now == clock
      requires wakeupAt != 0 || |connections| + |pendingSockets| + readySockets >= needConnections
      modifies `connections, `readyConnections, `readySockets, `nextId, `trace, `wasChecked,
               `messages, `callbackAlive, `stopFlag, `wakeupAt
      ensures Valid() && readySockets == 0 && old(trace) <= trace && !CurrentLife().stopped
      ensures wakeupAt != 0 || |connections| + |pendingSockets| >= needConnections
      ensures |connections| + |pendingSockets| <= old(|connections| + |pendingSockets| + readySockets)
      ensures KeepsTimer(old(wakeupAt), wakeupAt, old(clock))
    {
      hide Inv, Traced, Fits, Current, CurrentBook, CurrentLife;
      while readySockets != 0 && |connections| + |pendingSockets| < needConnections
        invariant Valid() && Running(CurrentLife()) && KeepsTimer(old(wakeupAt), wakeupAt, old(clock))
        invariant wakeupAt != 0 || |connections| + |pendingSockets| + readySockets >= needConnections
        invariant |connections| + |pendingSockets| + readySockets <= old(|connections| + |pendingSockets| + readySockets)
        invariant old(trace) <= trace
        decreases readySockets
      {
        TakeReadySocket();
        var created := CreateConnectionOn();
        if !created {
          RelaxWakeupAt(now + NANOS);
          DropReadySockets();
          return;
        }
        LifeFields();
      }
      DropReadySockets();
    }

    method TakeReadySocket()
      requires Valid() && Running(CurrentLife()) && 0 < readySockets
      modifies `readySockets
      ensures Valid() && readySockets == old(readySockets) - 1 && Running(CurrentLife())
      ensures Room(CurrentLife(), Current()) > 0
    {
      hide Traced, Fits, Current, CurrentBook, Room;
      SocketsFit(CurrentLife(), Current(), readySockets - 1);
      readySockets := readySockets - 1;
    }

    method DropReadySockets()
      requires Valid()
      modifies `readySockets
      ensures Valid() && readySockets == 0 && CurrentLife() == old(CurrentLife()).(readySockets := 0)
    {
      hide Traced, Fits, Current, CurrentBook;
      SocketsFit(CurrentLife(), Current(), 0);
      readySockets := 0;
    }

    /** How many connections the actor wants now. */
    method WantedConnections() returns (needConnections: int, now: int)
      requires Valid() && 0 < maxConnections
      modifies `clock, `unixTimeDifference, `trace
      ensures Valid() && old(trace) <= trace && CurrentLife() == old(CurrentLife()) && 0 < now == clock && old(clock) <= now
      ensures needConnections == Needed(|queueUpdates|, maxConnections, wasChecked, lastSuccessTime + 10 * NANOS >= now)
      ensures !wasChecked ==> needConnections == 1
      ensures wasChecked && queueUpdates == map[] ==>
                needConnections == if lastSuccessTime + 10 * NANOS >= now then 1 else 0
      ensures wasChecked && queueUpdates != map[] ==>
                needConnections == if lastSuccessTime + 10 * NANOS < now then 1
                                   else if |queueUpdates| <= maxConnections then |queueUpdates| else maxConnections
      ensures needConnections <= maxConnections
    {
      hide Valid, Current, CurrentBook, CurrentLife;
      Fields();
      needConnections := |queueUpdates|;
      if needConnections > maxConnections {
        needConnections := maxConnections;
      }
      if !wasChecked {
        needConnections := 1;
      }
      now := Now();
      if lastSuccessTime + 10 * NANOS < now {
        if needConnections > 1 {
          needConnections := 1;
        }
      } else {
        if needConnections == 0 {
          needConnections := 1;
        }
      }
    }

    /** Open sockets until there are as many connections as are wanted, and no more,
        or until the timer is set to try again. Nothing happens before the address
        and the SSL context are there. */
    method CreateNewConnections()
      requires Valid() && Running(CurrentLife())
      modifies `connections, `readyConnections, `pendingSockets, `readySockets, `nextId, `trace, `wasChecked,
               `messages, `callbackAlive, `stopFlag, `clock, `unixTimeDifference, `wakeupAt
      ensures Valid() && old(trace) <= trace && !CurrentLife().stopped
      ensures if ipAddress != NoAddress && (httpUrl || sslReady) then
                var need := Needed(|queueUpdates|, maxConnections, old(wasChecked), lastSuccessTime + 10 * NANOS >= clock);
                && (wakeupAt != 0 || |connections| + |pendingSockets| >= need)
                && |connections| + |pendingSockets| <= Most(old(|connections| + |pendingSockets| + readySockets), need)
              else CurrentLife() == old(CurrentLife()) && connections == old(connections) && trace == old(trace)
      ensures old(clock) <= clock && KeepsTimer(old(wakeupAt), wakeupAt, old(clock))
      ensures NewSocketsOnly(old(pendingSockets), old(nextId), pendingSockets)
    {
      hide Valid, Current, CurrentBook, CurrentLife, Needed, Most, KeepsTimer;
      LifeFields();
      KeptTimer();
      if ipAddress == NoAddress {
        return;
      }
      if !httpUrl && !sslReady {
        return;
      }
      OpenWanted();
    }

    /** The rest of `create_new_connections`. */
    method OpenWanted()
      requires Valid() && Running(CurrentLife()) && ipAddress != NoAddress && (httpUrl || sslReady)
      modifies `connections, `readyConnections, `pendingSockets, `readySockets, `nextId, `trace, `wasChecked,
               `messages, `callbackAlive, `stopFlag, `clock, `unixTimeDifference, `wakeupAt
      ensures Valid() && old(trace) <= trace && !CurrentLife().stopped
      ensures var need := Needed(|queueUpdates|, maxConnections, old(wasChecked), lastSuccessTime + 10 * NANOS >= clock);
        && (wakeupAt != 0 || |connections| + |pendingSockets| >= need)
        && |connections| + |pendingSockets| <= Most(old(|connections| + |pendingSockets| + readySockets), need)
      ensures old(clock) <= clock && KeepsTimer(old(wakeupAt), wakeupAt, old(clock))
      ensures NewSocketsOnly(old(pendingSockets), old(nextId), pendingSockets)
    {
      hide Valid, Current, CurrentBook, CurrentLife, Needed, Most;
      LifeFields();
      WantsSome();
      var needConnections, now := WantedConnections();
      var finished := OpenSockets(needConnections, now);
      if finished {
        UseReadySockets(needConnections, now);
      }
    }

    // ---------- Resolving the address ----------

    method ResolveIpAddress()
      requires Valid()
      modifies `isIpAddressBeingResolved, `clock, `unixTimeDifference, `trace, `wakeupAt
      ensures Valid() && old(trace) <= trace && CurrentLife() == old(CurrentLife()).(wakeupAt := wakeupAt)
      ensures isIpAddressBeingResolved <==>
                old(isIpAddressBeingResolved) || (!fixIpAddress && nextIpAddressResolveTime <= clock)
      ensures isIpAddressBeingResolved || fixIpAddress || 0 < wakeupAt <= nextIpAddressResolveTime
      ensures old(clock) <= clock && (wakeupAt == old(wakeupAt) || old(clock) < wakeupAt)
    {
      hide Inv, Traced, Fits, Current, CurrentBook, CurrentLife;
      LifeFields();
      Fields();
      if fixIpAddress || isIpAddressBeingResolved {
        return;
      }
      var now := Now();
      if now < nextIpAddressResolveTime {
        RelaxWakeupAt(nextIpAddressResolveTime);
        return;
      }
      isIpAddressBeingResolved := true;
    }

    predicate IpAddressFits(address: IpAddress) {
      address.Address? && (localMode || (address.ipv4 && !address.reserved))
    }

    // ---------- The loop and the events that enter it ----------

    method ResetTimer()
      requires Valid()
      modifies `wakeupAt
      ensures Valid() && wakeupAt == 0 && CurrentLife() == old(CurrentLife()).(wakeupAt := 0)
    {
      hide Traced, Current, CurrentBook, Fits;
      WakeupFits(CurrentLife(), Current(), 0);
      wakeupAt := 0;
    }

    method Stop()
      requires Valid() && stopFlag
      modifies `stopped
      ensures Valid() && stopped && CurrentLife() == old(CurrentLife()).(stopped := true)
    {
      hide Traced, Fits, Current, CurrentBook;
      StopFits(CurrentLife(), Current());
      stopped := true;
    }

    /** Send what can be sent, then arm the timer. */
    method SendAndArm()
      requires Valid()
      modifies `clock, `unixTimeDifference, `trace, `queues, `updateMap, `connections, `readyConnections,
               `parked, `wakeupAt, `timeoutAt
      ensures Valid() && old(trace) <= trace && CurrentLife() == old(CurrentLife()).(wakeupAt := wakeupAt)
      ensures old(parked) <= parked
      ensures Served(Current().book, timeoutAt) <==> parked == old(parked) || Timed(timeoutAt)
      ensures parked == old(parked) ==> NothingDue()
      ensures old(clock) <= clock
      ensures updateMap.Keys == old(updateMap.Keys) && connections.Keys == old(connections.Keys)
      ensures KeepsTimer(old(wakeupAt), wakeupAt, old(clock))
      ensures timeoutAt == if wakeupAt != 0 then wakeupAt else old(timeoutAt)
    {
      hide Valid, Served, Current, CurrentLife, KeepsTimer, Timed, NothingDue;
      var outcome := SendUpdates();
      if wakeupAt != 0 {
        timeoutAt := wakeupAt;
      }
      if outcome != HeaderError {
        TimerServes(Current().book, wakeupAt, timeoutAt);
      } else {
        ServedIfTimed(timeoutAt);
      }
    }

    /** What a turn of the loop leaves behind unless it stops the actor: updates are
        loaded or the log is exhausted, the address is known, being resolved or
        waited for, connections are open or the timer is set, nothing that is due is
        left while a connection is idle, and nothing that can be sent is left without a
        timer. If a header could not be built since the parked queues were
        `before`, the last holds exactly if no entry of the index is earlier than the
        timer, and the one before it may fail. */
    ghost predicate Worked(before: set<int>)
      reads this
    {
      && before <= parked
      && (!stopFlag ==> (Served(Current().book, timeoutAt) <==> parked == before || Timed(timeoutAt)))
      && (!stopFlag && parked == before ==> NothingDue())
      && (!stopFlag ==> tqueueEmpty || updateMap.Keys != {} || queueUpdates != map[])
      && (!stopFlag ==> isIpAddressBeingResolved || fixIpAddress || 0 < timeoutAt <= nextIpAddressResolveTime)
      && (!stopFlag && queueUpdates != map[] && ipAddress != NoAddress && (httpUrl || sslReady) ==>
            0 < timeoutAt || connections.Keys != {} || pendingSockets != {})
    }

    method Loop()
      requires Valid() && (stopped ==> stopFlag)
      modifies `clock, `unixTimeDifference, `tqueueOffset, `tqueueEmpty, `updateMap, `queueUpdates, `queues,
               `uniqueQueueId, `highest, `trace, `messages, `loads, `isIpAddressBeingResolved, `wakeupAt,
               `connections, `readyConnections, `pendingSockets, `readySockets, `nextId, `wasChecked,
               `callbackAlive, `stopFlag, `parked, `timeoutAt, `stopped
      ensures Valid() && old(trace) <= trace && old(loads) <= loads && stopped == stopFlag
      ensures old(stopFlag) ==> trace == old(trace) && messages == old(messages) && stopFlag
      ensures Worked(old(parked)) && old(parked) <= parked
      ensures wakeupAt == 0 || old(clock) < wakeupAt
      ensures timeoutAt == if !stopFlag && wakeupAt != 0 then wakeupAt else old(timeoutAt)
      ensures NewSocketsOnly(old(pendingSockets), old(nextId), pendingSockets)
    {
      hide Valid, Served, Current, CurrentBook, CurrentLife;
      LifeFields();
      ResetTimer();
      LifeFields();
      if !stopFlag {
        Turn();
        LifeFields();
      }
      if stopFlag {
        Stop();
      }
    }

    /** What the loop does while the actor runs. */
    method Turn()
      requires Valid() && Running(CurrentLife()) && wakeupAt == 0
      modifies `clock, `unixTimeDifference, `tqueueOffset, `tqueueEmpty, `updateMap, `queueUpdates, `queues,
               `uniqueQueueId, `highest, `trace, `messages, `loads, `isIpAddressBeingResolved, `wakeupAt,
               `connections, `readyConnections, `pendingSockets, `readySockets, `nextId, `wasChecked,
               `callbackAlive, `stopFlag, `parked, `timeoutAt
      ensures Valid() && old(trace) <= trace && old(loads) <= loads && !stopped
      ensures Worked(old(parked)) && old(parked) <= parked
      ensures wakeupAt == 0 || old(clock) < wakeupAt
      ensures timeoutAt == if !stopFlag && wakeupAt != 0 then wakeupAt else old(timeoutAt)
      ensures NewSocketsOnly(old(pendingSockets), old(nextId), pendingSockets)
    {
      hide Valid, Served, Current, CurrentBook, CurrentLife, KeepsTimer, NewSocketsOnly, Timed;
      Prepare();
      LifeFields();
      if !stopFlag {
        ghost var before, began := wakeupAt, clock;
        SendAndArm();
        LifeFields();
        TimerKept(before, wakeupAt, began);
      }
    }

    /** The part of the loop that comes before sending. */
    method Prepare()
      requires Valid() && Running(CurrentLife()) && wakeupAt == 0
      modifies `clock, `unixTimeDifference, `tqueueOffset, `tqueueEmpty, `updateMap, `queueUpdates, `queues,
               `uniqueQueueId, `highest, `trace, `messages, `loads, `isIpAddressBeingResolved, `wakeupAt,
               `connections, `readyConnections, `pendingSockets, `readySockets, `nextId, `wasChecked,
               `callbackAlive, `stopFlag
      ensures Valid() && old(trace) <= trace && old(loads) <= loads && !stopped && 0 <= wakeupAt
      ensures old(clock) <= clock && (wakeupAt == 0 || old(clock) < wakeupAt)
      ensures NewSocketsOnly(old(pendingSockets), old(nextId), pendingSockets)
      ensures tqueueEmpty || updateMap.Keys != {} || queueUpdates != map[]
      ensures isIpAddressBeingResolved || fixIpAddress || 0 < wakeupAt <= nextIpAddressResolveTime
      ensures queueUpdates != map[] && ipAddress != NoAddress && (httpUrl || sslReady) ==>
                0 < wakeupAt || connections.Keys != {} || pendingSockets != {}
    {
      hide Valid, Current, CurrentBook, CurrentLife, KeepsTimer, Hear, LoadsBatch, NewSocketsOnly, NothingDue;
      LifeFields();
      var batch, totalSize;
      ghost var offset, limit;
      offset, limit, batch, totalSize := LoadUpdates();
      LifeFields();
      if !stopFlag {
        ReachWebhook();
      }
    }

    /** See that the address is known and that there are connections. */
    method ReachWebhook()
      requires Valid() && Running(CurrentLife())
      modifies `clock, `unixTimeDifference, `trace, `messages, `isIpAddressBeingResolved, `wakeupAt,
               `connections, `readyConnections, `pendingSockets, `readySockets, `nextId, `wasChecked,
               `callbackAlive, `stopFlag
      ensures Valid() && old(trace) <= trace && !stopped && 0 <= wakeupAt
      ensures old(clock) <= clock && (wakeupAt == old(wakeupAt) || old(clock) < wakeupAt)
      ensures NewSocketsOnly(old(pendingSockets), old(nextId), pendingSockets)
      ensures isIpAddressBeingResolved || fixIpAddress || 0 < wakeupAt <= nextIpAddressResolveTime
      ensures queueUpdates != map[] && ipAddress != NoAddress && (httpUrl || sslReady) ==>
                0 < wakeupAt || connections.Keys != {} || pendingSockets != {}
    {
      hide Valid, Current, CurrentBook, CurrentLife, NewSocketsOnly;
      LifeFields();
      ResolveIpAddress();
      LifeFields();
      if !stopFlag {
        Connect();
      }
    }

    /** An actor with updates has a connection, or will have one, or tries again. */
    method Connect()
      requires Valid() && Running(CurrentLife())
      modifies `connections, `readyConnections, `pendingSockets, `readySockets, `nextId, `trace, `wasChecked,
               `messages, `callbackAlive, `stopFlag, `clock, `unixTimeDifference, `wakeupAt
      ensures Valid() && old(trace) <= trace && !stopped
      ensures 0 <= wakeupAt && (0 < old(wakeupAt) ==> 0 < wakeupAt <= old(wakeupAt))
      ensures old(clock) <= clock && (wakeupAt == old(wakeupAt) || old(clock) < wakeupAt)
      ensures NewSocketsOnly(old(pendingSockets), old(nextId), pendingSockets)
      ensures queueUpdates != map[] && ipAddress != NoAddress && (httpUrl || sslReady) ==>
                0 < wakeupAt || connections.Keys != {} || pendingSockets != {}
    {
      hide Valid, Current, CurrentBook, CurrentLife, KeepsTimer;
      ghost var before, began := wakeupAt, clock;
      LifeFields();
      WantsSome();
      CreateNewConnections();
      LifeFields();
      TimerFacts();
      TimerKept(before, wakeupAt, began);
      SizesAgree(connections);
    }

    lemma WantsSome()
      requires Valid()
      ensures 0 < maxConnections
      ensures queueUpdates != map[] ==>
                forall wasChecked, recent :: Needed(|queueUpdates|, maxConnections, wasChecked, recent) >= 1
    {
      hide Traced, Current, CurrentBook;
      LifeFields();
      LimitPositive(CurrentLife(), Current());
      forall wasChecked, recent | queueUpdates != map[]
        ensures Needed(|queueUpdates|, maxConnections, wasChecked, recent) >= 1
      {
        NeedsOne(|queueUpdates|, maxConnections, wasChecked, recent);
      }
    }

    lemma TimerFacts()
      requires Valid()
      ensures 0 <= wakeupAt
    {
      WakeupFits(CurrentLife(), Current(), 0);
    }

    /** The client says that the log has new events. */
    method Update()
      requires Valid() && !stopped
      modifies this
      ensures Valid() && stopped == stopFlag && old(trace) <= trace
      ensures |old(trace)| < |trace| && trace[|old(trace)|] == Woken
      ensures Worked(old(parked))
      ensures restored == old(restored)
    {
      hide Valid, Current, CurrentLife, Served, Worked;
      LifeFields();
      NoteWoken();
      LifeFields();
      Loop();
    }

    method NoteWoken()
      requires Valid()
      modifies `tqueueEmpty, `trace
      ensures Valid() && !tqueueEmpty && trace == old(trace) + [Woken] && CurrentLife() == old(CurrentLife())
    {
      hide Inv, Traced, CurrentLife, Bounded, Talks;
      ghost var s := Current();
      tqueueEmpty := false;
      Record(s, Woken);
    }

    /** The timer that was armed goes off. It is not set any more, unless this turn of
        the loop arms it again. */
    method TimeoutExpired()
      requires Valid() && !stopped && 0 < timeoutAt
      modifies this
      ensures Valid() && stopped == stopFlag && old(trace) <= trace
      ensures Worked(old(parked))
      ensures timeoutAt == if !stopFlag && wakeupAt != 0 then wakeupAt else 0
      ensures !stopFlag && timeoutAt == 0 && parked != old(parked) ==>
                (Served(Current().book, timeoutAt) <==> queues == {})
      ensures restored == old(restored)
    {
      hide Valid, Current, CurrentBook, CurrentLife, Served, NewSocketsOnly;
      Disarm();
      Loop();
    }

    method Disarm()
      requires Valid()
      modifies `timeoutAt
      ensures Valid() && timeoutAt == 0
    {
      hide Traced, Fits, Current, CurrentBook, CurrentLife;
      timeoutAt := 0;
    }

    /** Take the answer of the resolver: a bad address is an error, a new one starts
        a new generation of connections, and the owner of a verified webhook is
        told. */
    method TakeAddress(result: Option<IpAddress>)
      requires Valid() && !stopped
      modifies `ipAddress, `ipGeneration, `messages, `callbackAlive, `stopFlag
      ensures Valid()
      ensures var good := result.Some? && result.value.Address?
                          && (localMode || (result.value.ipv4 && !result.value.reserved));
        if !good then
          CurrentLife() == Fail(old(CurrentLife())) && ipAddress == old(ipAddress) && ipGeneration == old(ipGeneration)
        else
          && ipAddress == result.value
          && ipGeneration == old(ipGeneration) + (if old(ipAddress) == result.value then 0 else 1)
          && CurrentLife() == if old(ipAddress) == result.value || !old(CurrentLife()).wasChecked then old(CurrentLife())
                              else Say(old(CurrentLife()), WebhookVerified)
    {
      hide Traced, Fits, Current, CurrentBook, CurrentLife;
      LifeFields();
      match result {
        case None => OnError();
        case Some(address) =>
          if !IpAddressFits(address) {
            OnError();
          } else if ipAddress != address {
            ipAddress := address;
            ipGeneration := ipGeneration + 1;
            if wasChecked {
              SayFits(CurrentLife(), Current(), WebhookVerified);
              OnWebhookVerified();
            }
          }
      }
    }

    /** The resolver has answered: ask again after the cache time. */
    method FinishResolving()
      requires Valid() && isIpAddressBeingResolved
      modifies `isIpAddressBeingResolved, `clock, `unixTimeDifference, `trace, `nextIpAddressResolveTime, `wakeupAt
      ensures Valid() && old(trace) <= trace && !isIpAddressBeingResolved
      ensures CurrentLife() == old(CurrentLife()).(wakeupAt := wakeupAt)
      ensures 0 <= nextIpAddressResolveTime - clock - IP_ADDRESS_CACHE_TIME * NANOS
                <= IP_ADDRESS_CACHE_TIME / 10 * NANOS
    {
      hide Valid, Current, CurrentBook, CurrentLife, KeepsTimer;
      isIpAddressBeingResolved := false;
      var now := Now();
      var jitter: nat :| jitter <= IP_ADDRESS_CACHE_TIME / 10;
      nextIpAddressResolveTime := now + (IP_ADDRESS_CACHE_TIME + jitter) * NANOS;
      RelaxWakeupAt(nextIpAddressResolveTime);
    }

    method OnResolvedIpAddress(result: Option<IpAddress>)
      requires Valid() && !stopped && isIpAddressBeingResolved
      modifies this
      ensures Valid() && stopped == stopFlag && old(trace) <= trace
      ensures ipAddress == if result.Some? && result.value.Address?
                              && (localMode || (result.value.ipv4 && !result.value.reserved))
                           then result.value else old(ipAddress)
      ensures ipGeneration == old(ipGeneration) + if ipAddress == old(ipAddress) then 0 else 1
      ensures Worked(old(parked))
      ensures restored == old(restored)
    {
      hide Valid, Current, CurrentLife, Served, Worked, IpAddressFits;
      LifeFields();
      FinishResolving();
      LifeFields();
      TakeAddress(result);
      LifeFields();
      Loop();
    }

    /** Without an SSL context an actor that was never verified closes. */
    method OnSslContextCreated(created: bool)
      requires Valid() && !stopped
      modifies this
      ensures Valid() && stopped == stopFlag && old(trace) <= trace
      ensures sslReady <==> old(sslReady) || created
      ensures !created && !old(wasChecked || stopFlag) ==>
                stopFlag && messages == old(messages) + [WebhookClosed(false)]
      ensures Worked(old(parked))
      ensures restored == old(restored)
    {
      hide Valid, Current, CurrentLife, Served, Worked;
      LifeFields();
      if !created {
        RunningTalks();
        CreateWebhookError();
        LifeFields();
      } else {
        sslReady := true;
      }
      Loop();
    }

    /** An actor that is to go on can still talk to its owner. */
    lemma RunningTalks()
      requires Valid()
      ensures !stopFlag && !stopped ==> callbackAlive
    {
      hide Traced;
    }

    /** A pending socket has become a ready one, or has failed. */
    method TakeSocket(id: int, isOpen: bool)
      requires Valid() && !stopped && id in pendingSockets
      modifies `pendingSockets, `readySockets, `messages, `callbackAlive, `stopFlag
      ensures Valid() && id < nextId
      ensures var l := old(CurrentLife()).(pendingSockets := old(pendingSockets) - {id});
        CurrentLife() == if isOpen then l.(readySockets := l.readySockets + 1) else Fail(SayError(l))
    {
      hide Inv, Traced, Fits, Current, CurrentBook;
      AnswerSocketFits(CurrentLife(), Current(), id);
      pendingSockets := pendingSockets - {id};
      if isOpen {
        readySockets := readySockets + 1;
      } else {
        CreateWebhookError();
      }
    }

    /** A proxy answers once for each socket it was asked for. */
    method OnSocketReadyAsync(id: int, isOpen: bool)
      requires Valid() && !stopped && id in pendingSockets
      modifies this
      ensures Valid() && stopped == stopFlag && old(trace) <= trace
      ensures id !in pendingSockets
      ensures !isOpen && !old(wasChecked || stopFlag) ==>
                stopFlag && messages == old(messages) + [WebhookClosed(false)]
      ensures Worked(old(parked))
      ensures restored == old(restored)
    {
      hide Valid, Current, CurrentLife, Served, Worked;
      LifeFields();
      RunningTalks();
      TakeSocket(id, isOpen);
      LifeFields();
      Loop();
    }

    method Handle(connectionId: int, response: Option<Response>)
      requires Valid() && !stopped
      requires response.Some? && connectionId in connections ==> connections[connectionId].eventId != NO_EVENT
      modifies this
      ensures Valid() && (stopped ==> stopFlag) && old(trace) <= trace
      ensures connectionId !in old(connections) ==>
                trace == old(trace) && Current() == old(Current()) && CurrentLife() == old(CurrentLife())
      ensures connectionId in old(connections) ==>
                exists n :: |old(trace)| <= n < |trace|
                            && Answered(trace[n], connectionId, old(connections[connectionId]), response, ipGeneration,
                                        GoneTooLong(response, old(firstError410Time), Reading(trace, |old(trace)|)))
      ensures IsGone(response) && connectionId in old(connections) ==>
                |old(trace)| < |trace| && trace[|old(trace)|].Ticked?
      ensures var now := Reading(trace, |old(trace)|);
        && firstError410Time == (if connectionId !in old(connections) then old(firstError410Time)
                                 else FirstGone(response, old(firstError410Time), now))
        && (if connectionId in old(connections) && GoneTooLong(response, old(firstError410Time), now)
            then closeRequested && stopped == old(stopped)
            else closeRequested == old(closeRequested) && (connectionId in old(connections) ==> Worked(old(parked))))
      ensures old(parked) <= parked
      ensures restored == old(restored)
    {
      hide Valid, Current, CurrentBook, CurrentLife, Answered, Worked, IsGone, GoneTooLong, FirstGone, Reading;
      if connectionId !in connections {
        return;
      }
      HandleOn(connectionId, response);
    }

    /** `handle` on a connection that the actor still has. */
    method HandleOn(connectionId: int, response: Option<Response>)
      requires Valid() && !stopped && connectionId in connections
      requires response.Some? ==> connections[connectionId].eventId != NO_EVENT
      modifies this
      ensures Valid() && (stopped ==> stopFlag) && old(trace) <= trace && old(parked) <= parked
      ensures exists n :: |old(trace)| <= n < |trace|
                          && Answered(trace[n], connectionId, old(connections[connectionId]), response, ipGeneration,
                                        GoneTooLong(response, old(firstError410Time), Reading(trace, |old(trace)|)))
      ensures IsGone(response) ==> |old(trace)| < |trace| && trace[|old(trace)|].Ticked?
      ensures var now := Reading(trace, |old(trace)|);
        && firstError410Time == FirstGone(response, old(firstError410Time), now)
        && (if GoneTooLong(response, old(firstError410Time), now) then closeRequested && stopped == old(stopped)
            else closeRequested == old(closeRequested) && Worked(old(parked)))
      ensures restored == old(restored)
    {
      hide Valid, Current, CurrentBook, CurrentLife, Answered, Worked, IsGone, GoneTooLong, FirstGone, Reading, Freed,
           NewSocketsOnly;
      ghost var carrier := connections[connectionId];
      ghost var e;
      var needClose;
      LifeFields();
      needClose, e := HandleAnswer(connectionId, response);
      LifeFields();
      ghost var n := |trace| - 1;
      assert |old(trace)| <= n && Answered(trace[n], connectionId, carrier, response, ipGeneration, needClose);
      if needClose {
        closeRequested := true;
      } else {
        ghost var handled := trace;
        Loop();
        ReadingKept(handled, trace, |old(trace)|);
        assert Answered(trace[n], connectionId, carrier, response, ipGeneration, needClose);
      }
    }

    /** A connection has been closed by its peer: what it carried has failed. */
    method HangupShared(connectionId: int)
      requires Valid() && !stopped
      modifies this
      ensures Valid() && stopped == stopFlag && old(trace) <= trace
      ensures connectionId in old(connections) ==>
                exists n :: |old(trace)| <= n < |trace|
                            && Answered(trace[n], connectionId, old(connections[connectionId]), None, ipGeneration, false)
      ensures exists parkedBefore :: old(parked) <= parkedBefore && Worked(parkedBefore)
      ensures closeRequested == old(closeRequested)
      ensures restored == old(restored)
    {
      hide Valid, Current, CurrentLife, Served, Answered, Worked;
      Handle(connectionId, None);
      ghost var handled, parkedBefore := trace, parked;
      Loop();
      assert forall n | 0 <= n < |handled| :: trace[n] == handled[n];
      assert Worked(parkedBefore);
    }

    /** The owner is gone. */
    method Hangup()
      requires Valid() && !stopped
      modifies `callbackAlive, `stopped
      ensures Valid() && stopped && !callbackAlive
    {
      hide Traced, Fits, Current, CurrentBook;
      ShutFits(CurrentLife(), Current());
      callbackAlive := false;
      stopped := true;
    }

    method Close()
      requires Valid() && !stopped
      modifies `messages, `callbackAlive, `stopped
      ensures Valid() && CurrentLife() == Shut(old(CurrentLife())) && stopped && !callbackAlive
      ensures messages == if old(callbackAlive) then old(messages) + [WebhookClosed(true)] else old(messages)
    {
      hide Traced, Fits, Current, CurrentBook;
      ShutFits(CurrentLife(), Current());
      Tell(WebhookClosed(true));
      callbackAlive := false;
      stopped := true;
    }

    // ---------- Starting ----------

    ghost predicate Constructed()
      reads this
    {
      && Initial(Current().(maxLoaded := 0)) && 0 < maxConnections && 0 < clock
      && CurrentLife() == Life(maxConnections, {}, 0, 1, [], true, false, false, false, 0, false, [])
      && !isIpAddressBeingResolved && lastUpdateWasSuccessful
    }

    constructor (maxConnections: int, httpUrl: bool, port: int, localMode: bool, proxied: bool, fixIpAddress: bool,
                 fromDbFlag: bool, cachedIpAddress: IpAddress, clock: int, unixTimeDifference: int,
                 tqueue: map<int, LogEvent>, tqueueTail: int)
      requires 0 < maxConnections && 0 < clock
      requires 1 <= tqueueTail && forall id | id in tqueue ::
                 0 < id < tqueueTail && tqueue[id].extra < UNIQUE_QUEUES && tqueue[id].expiresAt <= MAX_INT32
      ensures Constructed()
      ensures this.maxConnections == maxConnections && this.httpUrl == httpUrl && this.port == port
      ensures this.localMode == localMode && this.proxied == proxied && this.fixIpAddress == fixIpAddress
      ensures this.fromDbFlag == fromDbFlag && this.tqueue == tqueue && !tqueueEmpty && queueUpdates == map[]
    {
      this.maxConnections, this.httpUrl, this.port, this.localMode := maxConnections, httpUrl, port, localMode;
      this.proxied, this.fixIpAddress, this.fromDbFlag := proxied, fixIpAddress, fromDbFlag;
      this.clock, this.unixTimeDifference, this.tqueue, this.tqueueTail := clock, unixTimeDifference, tqueue, tqueueTail;
      tqueueOffset, tqueueEmpty, maxLoadedUpdates, uniqueQueueId := NO_EVENT, false, 0, UNIQUE_QUEUES;
      updateMap, queueUpdates, queues := map[], map[], {};
      connections, readyConnections, nextId := map[], {}, 1;
      pendingSockets, readySockets := {}, 0;
      ipAddress, ipGeneration, nextIpAddressResolveTime := cachedIpAddress, 0, 0;
      isIpAddressBeingResolved, sslReady, lastSuccessTime, lastUpdateWasSuccessful := false, false, 0, true;
      firstError410Time, wakeupAt, timeoutAt := 0, 0, 0;
      stopFlag, stopped, closeRequested, wasChecked, callbackAlive := false, false, false, false, true;
      highest, parked, trace, messages, restored, loads := NO_EVENT, {}, [], [], false, [];
    }

    /** The first part of `start_up`: limits and times. */
    method SetUp()
      requires Constructed()
      modifies `maxLoadedUpdates, `lastSuccessTime, `nextIpAddressResolveTime, `start, `trace
      ensures Valid() && trace == [] && maxLoadedUpdates == 2 * maxConnections
      ensures CurrentLife() == old(CurrentLife()) && lastSuccessTime == clock - 3600 * NANOS
      ensures if fromDbFlag then clock <= nextIpAddressResolveTime <= clock + IP_ADDRESS_CACHE_TIME * NANOS
              else nextIpAddressResolveTime < clock
    {
      hide Traced, Fits, CurrentLife, Initial, Inv;
      SetTimes();
      maxLoadedUpdates := maxConnections * 2;
      start := Current();
      trace := [];
      assert CurrentLife() == Life(maxConnections, {}, 0, 1, [], true, false, false, false, 0, false, []);
      StartsValid(maxConnections, start);
    }

    method SetTimes()
      modifies `lastSuccessTime, `nextIpAddressResolveTime
      ensures lastSuccessTime == clock - 3600 * NANOS
      ensures if fromDbFlag then clock <= nextIpAddressResolveTime <= clock + IP_ADDRESS_CACHE_TIME * NANOS
              else nextIpAddressResolveTime < clock
    {
      lastSuccessTime := clock - 2 * IP_ADDRESS_CACHE_TIME * NANOS;
      if fromDbFlag {
        var jitter: nat :| jitter <= IP_ADDRESS_CACHE_TIME;
        nextIpAddressResolveTime := clock + jitter * NANOS;
      } else {
        nextIpAddressResolveTime := lastSuccessTime;
      }
    }

    lemma FreshLoader()
      requires Constructed()
      ensures tqueueOffset == NO_EVENT && !tqueueEmpty && queueUpdates == map[] && lastUpdateWasSuccessful
      ensures 0 < maxConnections && highest == NO_EVENT && forall id | id in tqueue :: 0 < id
    {
    }

    lemma FreshLife()
      requires Constructed()
      ensures CurrentLife() == Life(maxConnections, {}, 0, 1, [], true, false, false, false, 0, false, [])
    {
    }

    method MarkChecked()
      requires Valid() && Running(CurrentLife())
      requires messages == []
      modifies `wasChecked, `messages, `restored
      ensures Valid() && CurrentLife() == Check(old(CurrentLife())).(restored := true)
    {
      hide Traced, Fits, Current, CurrentBook;
      CheckFits(CurrentLife(), Current());
      BecomeChecked();
      RestoredFits(CurrentLife(), Current());
      restored := true;
    }

    /** No event of the log has expired, and a load can take them all. */
    ghost predicate LogFits()
      reads this
    {
      && |tqueue| <= TQUEUE_EVENT_BUFFER_SIZE && |tqueue| <= maxLoadedUpdates
      && forall id | id in tqueue :: Live(Current(), id)
    }

    /** The first load of an actor. */
    method LoadFirst() returns (batch: seq<int>, totalSize: nat)
      requires Valid() && Running(CurrentLife()) && queueUpdates == map[] && !tqueueEmpty && tqueueOffset == NO_EVENT
      requires 0 < maxLoadedUpdates && forall id | id in tqueue :: 0 < id
      modifies `clock, `unixTimeDifference, `tqueueOffset, `tqueueEmpty, `updateMap, `queueUpdates, `queues,
               `uniqueQueueId, `highest, `trace, `messages, `loads
      ensures Valid() && tqueue == old(tqueue) && |batch| <= totalSize
      ensures loads == old(loads) + [LogAnswer(|batch|, totalSize, lastUpdateWasSuccessful, wasChecked)]
      ensures LogFits() ==> |batch| == totalSize
    {
      hide Valid, LoadsBatch, Current, CurrentLife, Live;
      ghost var before, offset, limit := Current(), 0, 0;
      Fields();
      LifeFields();
      offset, limit, batch, totalSize := LoadUpdates();
      LifeFields();
      Fields();
      WholeLogLoaded(before, Current(), offset, limit, batch);
    }

    /** A forbidden port or address closes the actor at once; one restored from the
        database counts as verified. */
    method StartUp()
      requires Constructed()
      modifies `maxLoadedUpdates, `lastSuccessTime, `nextIpAddressResolveTime, `start, `trace, `messages,
               `callbackAlive, `stopFlag, `wasChecked, `restored
      ensures Valid() && trace == [] && maxLoadedUpdates == 2 * maxConnections
      ensures CurrentLife() ==
              var l := old(CurrentLife());
              if Refused() then Fail(l) else if fromDbFlag then Check(l).(restored := true) else l
      ensures stopFlag <==> (!localMode && (httpUrl || port !in {80, 88, 443, 8443}))
                            || (fixIpAddress
                                && !(ipAddress.Address? && (localMode || (ipAddress.ipv4 && !ipAddress.reserved))))
      ensures lastSuccessTime == clock - 3600 * NANOS
      ensures (stopFlag <==> Refused()) && (wasChecked <==> fromDbFlag && !stopFlag) && !stopped
    {
      hide Valid, Constructed, CurrentLife;
      LifeFields();
      FreshLife();
      SetUp();
      if !localMode {
        if httpUrl || port !in HTTPS_PORTS {
          OnError();
        }
      }
      LifeFields();
      if fixIpAddress && !stopFlag {
        if !IpAddressFits(ipAddress) {
          OnError();
          LifeFields();
          return;
        }
      }
      if fromDbFlag && !stopFlag {
        MarkChecked();
      }
      LifeFields();
    }

    /** The port, the protocol or the fixed address is not allowed. */
    predicate Refused()
      reads `ipAddress
    {
      (!localMode && (httpUrl || port !in HTTPS_PORTS)) || (fixIpAddress && !IpAddressFits(ipAddress))
    }
  }

  /** An actor starts and loads for the first time. A success comes before the
      verification exactly if the actor is not restored and the log gives all that
      it says is waiting; so it does for any log that fits into a load. */
  method StartAndLoad(actor: WebhookActor) returns (batch: seq<int>, totalSize: nat)
    requires actor.Constructed()
    modifies actor
    ensures actor.Valid() && |batch| <= totalSize && actor.tqueue == old(actor.tqueue)
    ensures EarlySuccess(actor.messages) <==> !actor.stopFlag && !actor.fromDbFlag && |batch| == totalSize
    ensures !actor.stopFlag && actor.LogFits() ==> |batch| == totalSize
    ensures (actor.stopFlag <==> old(actor.Refused())) && (actor.wasChecked <==> actor.fromDbFlag && !actor.stopFlag)
  {
    hide WebhookActor.Valid, WebhookActor.Constructed, WebhookActor.Current, WebhookActor.CurrentLife, Live;
    actor.FreshLife();
    actor.FreshLoader();
    actor.LifeFields();
    actor.StartUp();
    batch, totalSize := [], 0;
    if !actor.stopFlag {
      batch, totalSize := actor.LoadFirst();
    }
    actor.MessagesOrderly();
  }

  /** The first load of an actor that is new and finds its log empty is announced as
      a success, although nothing has been verified. */
  method LoadEmptyLog() returns (actor: WebhookActor)
    ensures fresh(actor) && actor.Valid() && !actor.wasChecked && EarlySuccess(actor.messages)
  {
    hide WebhookActor.Valid, WebhookActor.Constructed, WebhookActor.Current, WebhookActor.CurrentLife, Live;
    actor := new WebhookActor(1, false, 443, true, false, false, false, NoAddress, 1, 0, map[], 1);
    var batch, totalSize := StartAndLoad(actor);
  }
}
