/** What the methods of the webhook actor do, as facts about values: batches taken
    from the log, answers from the webhook, the messages and flags of the actor,
    and how each of its steps is a step of the scheduler. */
module ActorSteps {
  import opened FiniteSets
  import opened Options
  import opened UnixClock
  import opened RetryPolicy
  import opened DeliveryBook
  import opened Scheduler
  import opened SchedulerRuns
  import opened Counting
  import opened CallbackProtocol

  // ---------- Histories ----------

  /** The history is a run of the scheduler that leads to state `s`. */
  ghost predicate Traced(start: State, trace: seq<Step>, s: State) {
    FromStart(start, trace) && After(start, trace) == s && Inv(s)
  }

  lemma EmptyTrace(s: State)
    requires Initial(s)
    ensures Traced(s, [], s)
  {
    InitialInv(s);
  }

  lemma TraceExtends(start: State, trace: seq<Step>, s: State, e: Step)
    requires Traced(start, trace, s) && Enabled(s, e)
    ensures Traced(start, trace + [e], Apply(s, e))
  {
    hide Inv, Enabled, Apply;
    StepKeepsInv(s, e);
    RunExtends(start, trace, e);
  }

  lemma TracedInv(start: State, trace: seq<Step>, s: State)
    requires Traced(start, trace, s)
    ensures Inv(s)
  {
  }

  /** The history has grown, and `e` is its last step. */
  predicate Adds(before: seq<Step>, after: seq<Step>, e: Step) {
    |before| < |after| && before == after[..|before|] && after[|after| - 1] == e
  }

  // ---------- Loading ----------

  /** A run of live log events in id order from `offset`: all of them, or the
      first `limit`. */
  ghost predicate IsBatch(s: State, offset: int, limit: nat, ids: seq<int>) {
    && Increasing(ids) && |ids| <= limit
    && (forall id | id in ids :: Live(s, id) && offset <= id)
    && (forall id | Live(s, id) && offset <= id && id !in ids :: |ids| == limit && forall k | k in ids :: k < id)
  }

  /** Of a batch, exactly the events above the highest one ever loaded are new. */
  ghost predicate NewAbove(s: State, ids: seq<int>) {
    forall id | id in ids :: id !in s.book.updates <==> s.highest < id
  }

  lemma BatchNewAbove(s: State, offset: int, limit: nat, ids: seq<int>)
    requires Inv(s) && IsBatch(s, offset, limit, ids)
    ensures NewAbove(s, ids)
  {
    hide Consistent;
  }

  /** The live events from `offset` on that may have been loaded before. */
  function LiveBelow(s: State, offset: int, highest: int): set<int> {
    set id | id in s.log && Live(s, id) && offset <= id <= highest
  }

  /** A load of up to `limit` events from `offset` gets beyond what is loaded. */
  ghost predicate GetsBeyond(s: State, offset: int, limit: nat, highest: int) {
    |LiveBelow(s, offset, highest)| < limit && exists id :: Live(s, id) && offset <= id && highest < id
  }

  /** A batch brings a new event exactly if there is one and fewer than `limit` come
      before it. After the offset went back to the head that may fail. */
  lemma BatchBringsNew(s: State, offset: int, limit: nat, ids: seq<int>, highest: int)
    requires IsBatch(s, offset, limit, ids)
    ensures (exists id | id in ids :: highest < id) <==> GetsBeyond(s, offset, limit, highest)
  {
    var below := LiveBelow(s, offset, highest);
    DistinctSize(ids);
    if id :| id in ids && highest < id {
      assert below + {id} <= Members(ids);
      SubsetSize(below + {id}, Members(ids));
    } else {
      assert Members(ids) <= below;
      SubsetSize(Members(ids), below);
    }
  }

  /** The first `i` events of a batch taken in state `s0` have been dealt with: the
      new ones are loaded, and the offset comes after the last of them. */
  ghost predicate Follows(s0: State, s: State, limit: nat, ids: seq<int>, i: nat) {
    && s.log == s0.log && s.now == s0.now && s.unixDiff == s0.unixDiff && s.maxLoaded == s0.maxLoaded
    && s.drained == s0.drained
    && i <= |ids| && IsBatch(s0, s0.offset, limit, ids) && NewAbove(s0, ids)
    && s.offset == (if 0 < i && s0.highest < ids[i - 1] then ids[i - 1] + 1 else s0.offset)
    && s.book.updates.Keys == s0.book.updates.Keys + Members(ids[..i])
    && |s.book.queueUpdates| + |ids| - i <= s.maxLoaded
  }

  lemma FollowsStart(s: State, limit: nat, ids: seq<int>)
    requires Inv(s) && IsBatch(s, s.offset, limit, ids) && |s.book.queueUpdates| + limit <= s.maxLoaded
    ensures Follows(s, s, limit, ids, 0)
  {
    hide Inv;
    BatchNewAbove(s, s.offset, limit, ids);
  }

  lemma MembersNext(ids: seq<int>, i: nat)
    requires i < |ids|
    ensures Members(ids[..i + 1]) == Members(ids[..i]) + {ids[i]}
    ensures Increasing(ids) ==> ids[i] !in Members(ids[..i])
    ensures Increasing(ids) && 0 < i ==> ids[i - 1] < ids[i]
  {
    assert ids[..i + 1] == ids[..i] + [ids[i]];
  }

  /** The next event of the batch may be loaded: whatever the log offers before it
      is loaded already. */
  lemma FollowsLoad(s0: State, s: State, limit: nat, ids: seq<int>, i: nat)
    requires Inv(s) && Follows(s0, s, limit, ids, i) && i < |ids| && ids[i] !in s.book.updates
    ensures NextToLoad(s, ids[i]) && |s.book.queueUpdates| < s.maxLoaded
    ensures Follows(s0, Load(s, ids[i]), limit, ids, i + 1)
  {
    hide Inv, Live, Load, Enabled, Apply, QueueOf, NextToLoad, Increasing, Members;
    assert ids[i] in ids;
    BatchNext(s0, s, limit, ids, i);
    MembersNext(ids, i);
    LoadSteps(s, ids[i]);
  }

  /** What a batch has below its place `i` comes before that place. */
  lemma BatchBefore(s: State, offset: int, limit: nat, ids: seq<int>, i: nat, id: int)
    requires IsBatch(s, offset, limit, ids) && i < |ids| && Live(s, id) && offset <= id < ids[i]
    ensures id in Members(ids[..i])
  {
    hide Live;
    assert ids[i] in ids;
    assert id in ids;
    var k :| 0 <= k < |ids| && ids[k] == id;
    assert k < i;
    assert ids[..i][k] == id;
  }

  lemma OffsetBetween(s: State, offset: int, limit: nat, ids: seq<int>, i: nat)
    requires IsBatch(s, offset, limit, ids) && i < |ids|
    ensures Live(s, ids[i]) && offset <= ids[i]
    ensures 0 < i ==> offset <= ids[i - 1] < ids[i]
  {
    hide Live;
    assert ids[i] in ids;
    assert 0 < i ==> ids[i - 1] in ids;
  }

  lemma BatchNext(s0: State, s: State, limit: nat, ids: seq<int>, i: nat)
    requires Follows(s0, s, limit, ids, i) && i < |ids| && ids[i] !in s.book.updates
    ensures NextToLoad(s, ids[i])
  {
    hide IsBatch, NewAbove, Members;
    OffsetBetween(s0, s0.offset, limit, ids, i);
    forall j | j in s.log && s.offset <= j < ids[i] && Live(s, j)
      ensures j in s.book.updates
    {
      BatchBefore(s0, s0.offset, limit, ids, i, j);
      assert j in s.book.updates.Keys;
    }
  }

  lemma FollowsSkip(s0: State, s: State, limit: nat, ids: seq<int>, i: nat)
    requires Follows(s0, s, limit, ids, i) && i < |ids| && ids[i] in s.book.updates
    ensures Follows(s0, s, limit, ids, i + 1)
  {
    assert ids[i] in ids;
    MembersNext(ids, i);
  }

  /** Where a load from `offset` leaves the offset. */
  function OffsetAfter(offset: int, highest: int, ids: seq<int>): int {
    if ids != [] && highest < ids[|ids| - 1] then ids[|ids| - 1] + 1 else offset
  }

  lemma FollowsEnd(s0: State, s: State, limit: nat, ids: seq<int>)
    requires Follows(s0, s, limit, ids, |ids|)
    ensures IsBatch(s, s0.offset, limit, ids) && NewAbove(s0, ids)
    ensures s.book.updates.Keys == s0.book.updates.Keys + Members(ids)
    ensures s.offset == OffsetAfter(s0.offset, s0.highest, ids)
    ensures s.log == s0.log && s.drained == s0.drained
  {
    assert forall id :: Live(s0, id) <==> Live(s, id);
    assert ids[..|ids|] == ids;
  }

  /** A load from `offset`, the old offset or the head of the log, has turned state
      `s` into `s'`. It brings a new event exactly if it gets beyond those that are
      loaded, which it does, if at all, from the old offset unless that went back. */
  ghost predicate LoadsBatch(s: State, s': State, offset: int, limit: nat, ids: seq<int>) {
    && IsBatch(s', offset, limit, ids) && s'.log == s.log
    && (offset == s.offset || forall id | id in s.log :: offset <= id)
    && (offset != s.offset && s.offset != NO_EVENT ==> exists id | id in s.log :: id < s.offset)
    && s'.book.updates.Keys == s.book.updates.Keys + Members(ids)
    && s'.offset == OffsetAfter(offset, s.highest, ids)
    && (s'.drained <==> ids == [])
    && ((exists id | id in ids :: id !in s.book.updates) <==> GetsBeyond(s', offset, limit, s.highest))
    && (AtHighest(s) && offset == s.offset ==> forall id | id in ids :: id !in s.book.updates)
  }

  lemma SameAbove(s: State, s': State, ids: seq<int>)
    requires s'.book == s.book && s'.highest == s.highest && NewAbove(s', ids)
    ensures NewAbove(s, ids)
  {
  }

  lemma BatchLoaded(s: State, s': State, offset: int, limit: nat, ids: seq<int>)
    requires IsBatch(s', offset, limit, ids) && s'.log == s.log && NewAbove(s, ids) && LogWellFormed(s')
    requires offset == s.offset || forall id | id in s.log :: offset <= id
    requires offset != s.offset && s.offset != NO_EVENT ==> exists id | id in s.log :: id < s.offset
    requires s'.book.updates.Keys == s.book.updates.Keys + Members(ids)
    requires s'.offset == OffsetAfter(offset, s.highest, ids) && (s'.drained <==> ids == [])
    ensures LoadsBatch(s, s', offset, limit, ids)
  {
    hide GetsBeyond, OffsetAfter;
    BatchBringsNew(s', offset, limit, ids, s.highest);
    assert forall id | id in ids :: Live(s', id) && 0 < id;
  }

  /** A log without expired events that fits into a batch is loaded as a whole. */
  lemma WholeLogLoaded(s: State, s': State, offset: int, limit: nat, ids: seq<int>)
    requires LoadsBatch(s, s', offset, limit, ids) && s.offset == NO_EVENT && forall id | id in s.log :: 0 < id
    ensures |s.log| <= limit && (forall id | id in s.log :: Live(s', id)) ==> |ids| == |s.log|
  {
    if |s.log| <= limit && (forall id | id in s.log :: Live(s', id)) {
      BatchInLog(s', offset, limit, ids);
      DistinctSize(ids);
      if |ids| < limit {
        forall id | id in s.log.Keys
          ensures id in Members(ids)
        {
          assert Live(s', id) && offset <= id;
        }
        SubsetSize(s.log.Keys, Members(ids));
      }
    }
  }

  lemma SomethingLoaded(s: State, s': State, offset: int, limit: nat, ids: seq<int>)
    requires LoadsBatch(s, s', offset, limit, ids)
    ensures s'.drained || s'.book.updates.Keys != {}
  {
    if ids != [] {
      assert ids[0] in Members(ids);
    }
  }

  lemma LoadSteps(s: State, id: int)
    requires Inv(s) && NextToLoad(s, id) && |s.book.queueUpdates| < s.maxLoaded
    ensures id in s.log && s.log[id].expiresAt >= Unix(s)
    ensures var e := Loaded(id, QueueOf(s, s.log[id])); Enabled(s, e) && Apply(s, e) == Load(s, id)
    ensures |Load(s, id).book.queueUpdates| <= |s.book.queueUpdates| + 1
    ensures var s' := Load(s, id); s'.log == s.log && s'.now == s.now && s'.unixDiff == s.unixDiff
                                   && s'.maxLoaded == s.maxLoaded && s'.book.connections == s.book.connections
                                   && s'.offset == id + 1 && s'.drained == s.drained
                                   && s'.book.updates.Keys == s.book.updates.Keys + {id}
  {
    hide Inv;
    AddGrowsByOne(s.book, id, Update(s.log[id].expiresAt, 0, s.now, FRESH, QueueOf(s, s.log[id])));
  }

  lemma EmptyBatch(s: State, limit: nat)
    requires s.log == map[]
    ensures IsBatch(s, s.offset, limit, [])
  {
  }

  /** A batch is a part of the log. */
  lemma BatchInLog(s: State, offset: int, limit: nat, ids: seq<int>)
    requires IsBatch(s, offset, limit, ids)
    ensures |ids| <= |s.log|
  {
    DistinctSize(ids);
    SubsetSize(Members(ids), s.log.Keys);
    assert |s.log| == |s.log.Keys|;
  }

  /** An empty batch shows that the log is exhausted. */
  lemma DrainSteps(s: State, limit: nat)
    requires Inv(s) && IsBatch(s, s.offset, limit, []) && 0 < limit
    ensures Enabled(s, Drained) && Apply(s, Drained) == s.(drained := true)
    ensures IsBatch(s.(drained := true), s.offset, limit, [])
  {
    hide Inv;
    assert forall id :: Live(s.(drained := true), id) <==> Live(s, id);
  }

  lemma LoaderLimits(s: State)
    requires Inv(s)
    ensures LogWellFormed(s)
    ensures |s.book.queueUpdates| <= s.maxLoaded
  {
  }

  // ---------- Sending ----------

  datatype SendOutcome = SentOne | NoConnection | NoPending | NotReady | HeaderError

  /** The head of the queue that the index puts first can be sent when its wake-up
      has come. */
  lemma FirstIsHead(s: State, e: Queue)
    requires Inv(s) && IsFirst(s.book.queues, e)
    ensures e.id in s.book.queueUpdates && s.book.queueUpdates[e.id] != [] && e.id != 0 && e.id !in s.book.parked
    ensures var id := s.book.queueUpdates[e.id][0];
      && id in s.book.updates && id != NO_EVENT && Key(s.book.updates, id) == e
      && (e.wakeupAt <= s.now ==> Due(s, id))
  {
    assert Keyed(s.book, e);
    var id := s.book.queueUpdates[e.id][0];
    assert QueueHolds(s.book.updates, e.id, s.book.queueUpdates[e.id]) && id in s.book.queueUpdates[e.id];
    assert Queued(s.book, id);
    TakeKeepsQueues(s.book, id, 0);
  }

  lemma SendSteps(s: State, conn: int, id: int)
    requires Inv(s) && Due(s, id) && conn in s.book.ready
    ensures conn in s.book.connections
    ensures Enabled(s, Sent(conn, id)) && Apply(s, Sent(conn, id)) == s.(book := Send(s.book, conn, id, s.now))
    ensures Enabled(s, Parked(id)) && Apply(s, Parked(id)) == s.(book := Park(s.book, id, s.now))
  {
    assert Carries(s.book.connections, conn, NO_EVENT);
  }

  /** Nothing that could be sent now is left waiting without a timer: no connection
      is idle, nothing is in the index, or the timer is set no later than the
      first wake-up of the index. */
  ghost predicate Served(b: Book, timer: int) {
    b.ready == {} || b.queues == {} || exists e :: IsFirst(b.queues, e) && 0 < timer <= e.wakeupAt
  }

  /** With a connection idle this is so exactly when no entry of the index is
      earlier than the timer. */
  lemma ServedWhenTimed(b: Book, timer: int)
    requires b.ready != {}
    ensures Served(b, timer) <==> forall e | e in b.queues :: 0 < timer <= e.wakeupAt
  {
    if b.queues != {} {
      var first := FirstExists(b.queues);
    }
  }

  /** Sending stops at a header that cannot be built. Nothing is left waiting then
      exactly when none of the other entries is earlier than the timer. */
  lemma ServedAfterParking(s: State, id: int, timer: int)
    requires Enabled(s, Parked(id))
    ensures Served(Apply(s, Parked(id)).book, timer)
            <==> forall e | e in s.book.queues && e != Key(s.book.updates, id) :: 0 < timer <= e.wakeupAt
  {
    hide Served;
    ServedWhenTimed(Park(s.book, id, s.now), timer);
  }

  lemma TimerServes(b: Book, wakeupAt: int, timeoutAt: int)
    requires Served(b, wakeupAt) && (wakeupAt != 0 ==> timeoutAt == wakeupAt)
    ensures Served(b, timeoutAt)
  {
  }

  /** A timer that was set is still set, and no later; a new one is in the future. */
  predicate KeepsTimer(before: int, after: int, now: int) {
    (0 < before ==> 0 < after <= before) && (after == before || now < after)
  }

  lemma TimerKept(before: int, after: int, now: int)
    requires KeepsTimer(before, after, now)
    ensures (0 < before ==> 0 < after <= before) && (after == before || now < after)
  {
  }

  lemma TimerKeptLater(before: int, between: int, after: int, began: int, now: int)
    requires KeepsTimer(before, between, began) && KeepsTimer(between, after, now) && began <= now
    ensures KeepsTimer(before, after, began)
  {
  }

  lemma SizesAgree(connections: map<int, Connection>)
    ensures |connections| > 0 <==> connections.Keys != {}
  {
    assert |connections| == |connections.Keys|;
  }

  // ---------- Answers ----------

  /** What a webhook connection answers, as far as the actor looks at it. */
  datatype Response = Response(isResponse: bool, keepAlive: bool, code: int, requestsMethod: bool, retryAfter: int) {
    predicate Ok() { isResponse && 200 <= code <= 299 }
  }

  const WEBHOOK_DROP_TIMEOUT := 60 * 60 * 23

  predicate IsGone(response: Option<Response>) {
    response.Some? && response.value.isResponse && response.value.code == 410
  }

  /** The webhook is gone, and was when it answered at time `first`, more than 23
      hours ago. */
  predicate GoneTooLong(response: Option<Response>, first: int, now: int) {
    IsGone(response) && first != 0 && now > first + WEBHOOK_DROP_TIMEOUT * NANOS
  }

  /** The time of the first of the answers 410 that follow each other. */
  function FirstGone(response: Option<Response>, first: int, now: int): int {
    if response.None? || !response.value.isResponse then first
    else if response.value.code != 410 then 0
    else if first == 0 then now
    else first
  }

  /** The clock reading at place `i` of a history. */
  function Reading(trace: seq<Step>, i: nat): int {
    if i < |trace| && trace[i].Ticked? then trace[i].now else 0
  }

  lemma ReadingKept(before: seq<Step>, after: seq<Step>, i: nat)
    requires before <= after && i < |before|
    ensures Reading(after, i) == Reading(before, i)
  {
  }

  /** The step by which connection `conn` ends the delivery of `id`. */
  predicate Ends(e: Step, conn: int, id: int, keep: bool, ok: bool, retryAfter: int) {
    match e
    case Succeeded(c, k, _, kept) => ok && c == conn && k == id && kept == keep
    case Retried(c, k, f, _, _, kept) => !ok && c == conn && k == id && kept == keep && f.retryAfter == retryAfter
    case Expired(c, k, _, f, kept) => !ok && c == conn && k == id && kept == keep && f.retryAfter == retryAfter
    case _ => false
  }

  /** The step that answers a response, or a hangup, on connection `conn`. Success is
      an answer of the 200s, every other one is a failure with the retry-after that it
      brings. */
  ghost predicate Concludes(e: Step, conn: int, id: int, response: Option<Response>, keep: bool) {
    if id == NO_EVENT then e == Closed(conn)
    else
      && (if response.Some? && response.value.isResponse && 200 <= response.value.code <= 299 then e.Succeeded?
          else (e.Retried? || e.Expired?)
               && e.failure.retryAfter
                  == if response.Some? && response.value.isResponse then response.value.retryAfter else 0)
      && e.conn == conn && e.id == id && e.keep == keep
  }

  /** The connection is kept for an answer with keep-alive, if it belongs to the present
      address and the actor does not close. */
  ghost predicate Answered(e: Step, conn: int, c: Connection, response: Option<Response>, ipGeneration: int,
                           needClose: bool) {
    Concludes(e, conn, c.eventId, response,
              response.Some? && response.value.isResponse && response.value.keepAlive
              && c.ipGeneration == ipGeneration && !needClose)
  }

  /** What a failure makes of the head `id`: after the wait it is sent again, unless it
      has expired by then. */
  lemma AfterErrorWaits(s: State, id: int, f: Failure) returns (wait: int)
    requires QueuesHoldUpdates(s.book) && IsHead(s.book, id) && Drawable(f)
    ensures var u, s' := s.book.updates[id], AfterError(s, id, f);
      && WaitFits(u.backoff, f.retryAfter, wait)
      && (if UnixTime(s.unixDiff, s.now) + wait > u.expiresAt then id !in s'.book.updates && id !in s'.log
          else && s'.log == s.log && s'.book.queueUpdates == s.book.queueUpdates
               && id in s'.book.updates && s'.book.updates[id].wakeupAt == s.now + wait * NANOS
               && Queue(s.now + wait * NANOS, u.queueId) in s'.book.queues)
  {
    hide QueuesHoldUpdates, Waiting;
    var b := s.book.updates[id].backoff;
    wait := EffectiveDelay(b, f);
    RetryAfterObeyed(b, f);
  }

  /** The waits that a failure may bring: what the peer asks for, up to an hour; else
      nothing at first, and then twice the delay or a cap between 60 and 120. */
  predicate WaitFits(b: Backoff, retryAfter: int, wait: int) {
    && (0 < retryAfter <= 3600 ==> wait == retryAfter)
    && (3600 < retryAfter ==> wait == 3600)
    && (retryAfter <= 0 && b.failCount == 0 ==> wait == 0)
    && (retryAfter <= 0 && b.failCount > 0 && 2 * b.delay <= 60 ==> wait == 2 * b.delay)
    && (retryAfter <= 0 && b.failCount > 0 && 2 * b.delay > 60 ==> 60 <= wait <= 120 && wait <= 2 * b.delay)
  }

  /** A busy connection carries the head of a queue: the checks of `drop_event`
      and `on_update_ok` hold. */
  lemma CarriedFacts(s: State, conn: int)
    requires Inv(s) && conn in s.book.connections && s.book.connections[conn].eventId != NO_EVENT
    ensures var id := s.book.connections[conn].eventId;
      Carried(s, conn, id) && IsHead(s.book, id) && QueuesHoldUpdates(s.book) && conn !in s.book.ready
  {
    assert conn in s.book.ready <==> Carries(s.book.connections, conn, NO_EVENT);
    CarriedIsHead(s, conn, s.book.connections[conn].eventId);
  }

  function Released(s: State, conn: int, keep: bool): State
    requires conn in s.book.connections
  {
    s.(book := Release(s.book, conn, keep))
  }

  predicate SameConnections(s: State, s': State) {
    s'.book.connections == s.book.connections && s'.maxLoaded == s.maxLoaded && s'.now == s.now
    && s'.unixDiff == s.unixDiff
  }

  lemma SuccessSteps(s: State, conn: int, id: int, keep: bool)
    requires Inv(s) && Carried(s, conn, id)
    ensures IsHead(s.book, id) && QueuesHoldUpdates(s.book) && conn in s.book.connections
    ensures var e := Succeeded(conn, id, s.book.updates[id].queueId, keep);
      Enabled(s, e) && Apply(s, e) == Released(Scheduler.DropEvent(s, id), conn, keep)
    ensures SameConnections(s, Scheduler.DropEvent(s, id))
  {
    CarriedIsHead(s, conn, id);
  }

  /** The step that a failure is. */
  function FailureStep(s: State, conn: int, id: int, f: Failure, keep: bool): Step
    requires id in s.book.updates
  {
    if TooLate(s, id, f) then Expired(conn, id, s.book.updates[id].queueId, f, keep)
    else Retried(conn, id, f, Unix(s), s.book.updates[id].expiresAt, keep)
  }

  /** The actor after a failure, before its connection is released. */
  function AfterError(s: State, id: int, f: Failure): State
    requires QueuesHoldUpdates(s.book) && IsHead(s.book, id)
  {
    if TooLate(s, id, f) then Scheduler.DropEvent(s, id) else s.(book := Delay(s.book, id, f, s.now))
  }

  lemma FailureSteps(s: State, conn: int, id: int, f: Failure, keep: bool)
    requires Inv(s) && Carried(s, conn, id) && Drawable(f)
    ensures IsHead(s.book, id) && QueuesHoldUpdates(s.book) && conn in s.book.connections
    ensures var e, s' := FailureStep(s, conn, id, f, keep), AfterError(s, id, f);
      && Enabled(s, e) && SameConnections(s, s') && Apply(s, e) == Released(s', conn, keep)
      && Ends(e, conn, id, keep, false, f.retryAfter)
  {
    hide Inv, QueuesHoldUpdates;
    CarriedIsHead(s, conn, id);
  }

  lemma CloseSteps(s: State, conn: int)
    requires Inv(s) && conn in s.book.connections && s.book.connections[conn].eventId == NO_EVENT
    ensures Enabled(s, Closed(conn)) && Apply(s, Closed(conn)) == s.(book := Close(s.book, conn))
  {
    assert Carries(s.book.connections, conn, NO_EVENT);
  }

  lemma OpenSteps(s: State, conn: int, ipGeneration: int)
    requires Inv(s) && conn !in s.book.connections
    ensures var e := Opened(conn, ipGeneration);
      Enabled(s, e) && Apply(s, e) == s.(book := DeliveryBook.Open(s.book, conn, ipGeneration))
  {
    hide Inv;
  }

  // ---------- The rest of the actor ----------

  /** Sockets being opened, the messages sent to the owner, and the flags. */
  datatype Life = Life(
    maxConnections: int,
    pendingSockets: set<int>,
    readySockets: nat,
    nextId: int,
    messages: seq<Message>,
    callbackAlive: bool,
    stopFlag: bool,
    stopped: bool,
    wasChecked: bool,
    wakeupAt: int,
    restored: bool,
    loads: seq<LogAnswer>)

  /** What the log gave for a load and how much it said was waiting; whether the last
      answer of the webhook was a success by then, and the webhook verified. */
  datatype LogAnswer = LogAnswer(returned: nat, total: nat, afterSuccess: bool, checked: bool) {
    predicate Complete() { returned == total && afterSuccess }
  }

  /** A load returned all that waited, before the webhook was verified. */
  predicate LoadedEarly(loads: seq<LogAnswer>) {
    exists a | a in loads :: a.Complete() && !a.checked
  }

  /** Connections and sockets together stay within the limit. */
  predicate Bounded(l: Life, connections: map<int, Connection>, maxLoaded: nat) {
    && 0 < l.maxConnections && maxLoaded == 2 * l.maxConnections
    && |connections| + |l.pendingSockets| + l.readySockets <= l.maxConnections
    && (forall c | c in connections :: c < l.nextId)
    && (forall p | p in l.pendingSockets :: p < l.nextId)
  }

  /** The messages so far are orderly and agree with the flags. */
  predicate Talks(l: Life, connections: map<int, Connection>) {
    && Orderly(l.messages)
    && (l.callbackAlive ==> NotClosed(l.messages))
    && (Running(l) ==> l.callbackAlive)
    && (l.stopFlag ==> !l.callbackAlive && !l.wasChecked)
    && (l.wasChecked <==> WebhookVerified in l.messages)
    && (connections != map[] ==> l.wasChecked)
    && (LoadedEarly(l.loads) <==> EarlySuccess(l.messages))
    && (l.restored ==> l.wasChecked && !LoadedEarly(l.loads))
  }

  predicate Fits(l: Life, s: State) {
    Bounded(l, s.book.connections, s.maxLoaded) && Talks(l, s.book.connections) && 0 < s.now && 0 <= l.wakeupAt
  }

  lemma StartsValid(maxConnections: int, s: State)
    requires 0 < maxConnections && s.maxLoaded == 2 * maxConnections && 0 < s.now
    requires Initial(s.(maxLoaded := 0))
    ensures Traced(s, [], s) && Fits(Life(maxConnections, {}, 0, 1, [], true, false, false, false, 0, false, []), s)
  {
    EmptyTrace(s);
  }

  predicate Running(l: Life) { !l.stopFlag && !l.stopped }

  function Room(l: Life, s: State): int {
    l.maxConnections - |s.book.connections| - |l.pendingSockets| - l.readySockets
  }

  /** A message reaches the owner while the actor holds its callback. */
  function Say(l: Life, m: Message): Life {
    if l.callbackAlive then l.(messages := l.messages + [m]) else l
  }

  /** The log has been asked; a complete answer is told. */
  function Hear(l: Life, a: LogAnswer): Life {
    var heard := l.(loads := l.loads + [a]);
    if a.Complete() then Say(heard, WebhookSuccess) else heard
  }

  /** `on_webhook_error`. */
  function SayError(l: Life): Life {
    if l.wasChecked then Say(l, WebhookError) else l
  }

  /** `on_error`: an actor that was never verified closes. */
  function Fail(l: Life): Life {
    if !l.wasChecked && !l.stopFlag
    then Say(l, WebhookClosed(false)).(callbackAlive := false, stopFlag := true)
    else l
  }

  /** The first sign that the webhook can be reached. */
  function Check(l: Life): Life {
    if l.wasChecked then l else Say(l.(wasChecked := true), WebhookVerified)
  }

  /** `close`. */
  function Shut(l: Life): Life {
    Say(l, WebhookClosed(true)).(callbackAlive := false, stopped := true)
  }

  lemma SayFits(l: Life, s: State, m: Message)
    requires Fits(l, s) && !m.WebhookClosed? && !m.WebhookSuccess?
    requires m.WebhookError? || m.SendQuery? || m.WebhookVerified? ==> l.wasChecked
    ensures Fits(Say(l, m), s)
  {
    if l.callbackAlive { SendKeepsOrderly(l.messages, m); }
  }

  lemma HearFits(l: Life, s: State, a: LogAnswer)
    requires Fits(l, s) && Running(l) && a.checked == l.wasChecked
    ensures Fits(Hear(l, a), s) && l.callbackAlive
  {
    hide Bounded, Orderly, NotClosed, EarlySuccess, LoadedEarly;
    BoundedHears(l, s, a);
    SendKeepsOrderly(l.messages, WebhookSuccess);
    LoadedEarlyOr(l.loads, a);
  }

  lemma BoundedHears(l: Life, s: State, a: LogAnswer)
    requires Bounded(l, s.book.connections, s.maxLoaded)
    ensures Bounded(Hear(l, a), s.book.connections, s.maxLoaded)
  {
  }

  lemma LoadedEarlyOr(loads: seq<LogAnswer>, a: LogAnswer)
    ensures LoadedEarly(loads + [a]) <==> LoadedEarly(loads) || (a.Complete() && !a.checked)
  {
    assert a in loads + [a];
  }

  lemma RestoredFits(l: Life, s: State)
    requires Fits(l, s) && l.messages == [WebhookVerified]
    ensures Fits(l.(restored := true), s)
  {
  }

  lemma FailFits(l: Life, s: State)
    requires Fits(l, s) && !l.stopped
    ensures Fits(Fail(l), s) && (l.wasChecked || l.stopFlag || l.callbackAlive)
  {
    if l.callbackAlive && !l.wasChecked { SendKeepsOrderly(l.messages, WebhookClosed(false)); }
  }

  lemma CheckFits(l: Life, s: State)
    requires Fits(l, s) && Running(l)
    ensures Fits(Check(l), s) && (l.messages == [] ==> Check(l).messages == [WebhookVerified])
  {
    if !l.wasChecked { SendKeepsOrderly(l.messages, WebhookVerified); }
  }

  lemma ShutFits(l: Life, s: State)
    requires Fits(l, s) && !l.stopped
    ensures Fits(Shut(l), s) && Fits(l.(callbackAlive := false, stopped := true), s)
  {
    if l.callbackAlive { SendKeepsOrderly(l.messages, WebhookClosed(true)); }
  }

  /** Steps that leave the connections alone leave the rest of the actor alone. */
  lemma SameConnectionsFit(l: Life, s: State, s': State)
    requires Fits(l, s) && s'.book.connections.Keys == s.book.connections.Keys
    requires s'.maxLoaded == s.maxLoaded && s.now <= s'.now
    ensures Fits(l, s')
  {
    var cs, cs' := s.book.connections, s'.book.connections;
    assert |cs| == |cs.Keys| && |cs'| == |cs'.Keys|;
    assert cs != map[] <==> cs.Keys != {};
  }

  lemma SameLoadFits(l: Life, s: State, id: int)
    requires Fits(l, s) && id in s.log
    ensures Fits(l, Load(s, id))
  {
  }

  lemma WakeupFits(l: Life, s: State, at: nat)
    requires Fits(l, s)
    ensures Fits(l.(wakeupAt := at), s) && 0 <= l.wakeupAt && 0 < s.now
  {
  }

  lemma ConnectedIsChecked(l: Life, s: State, conn: int)
    requires Fits(l, s) && conn in s.book.connections
    ensures l.wasChecked
  {
  }

  lemma StopFits(l: Life, s: State)
    requires Fits(l, s) && l.stopFlag
    ensures Fits(l.(stopped := true), s)
  {
  }

  lemma LimitPositive(l: Life, s: State)
    requires Fits(l, s)
    ensures 0 < l.maxConnections < s.maxLoaded
  {
  }

  /** Releasing or closing a connection frees a place. */
  lemma FewerConnectionsFit(l: Life, s: State, s': State)
    requires Fits(l, s) && s'.book.connections.Keys <= s.book.connections.Keys
    requires s'.maxLoaded == s.maxLoaded && s.now <= s'.now
    ensures Fits(l, s')
  {
    var cs, cs' := s.book.connections, s'.book.connections;
    assert |cs| == |cs.Keys| && |cs'| == |cs'.Keys|;
    SubsetSize(cs'.Keys, cs.Keys);
    if cs' != map[] { var c := Pick(cs'.Keys); assert c in cs; }
  }

  /** A new idle connection, when there is room for one. */
  lemma OpenFits(l: Life, s: State, ipGeneration: int)
    requires Fits(l, s) && Running(l) && Room(l, s) > 0
    ensures l.nextId !in s.book.connections
    ensures var s' := s.(book := DeliveryBook.Open(s.book, l.nextId, ipGeneration));
      Fits(Check(l.(nextId := l.nextId + 1)), s') && |s'.book.connections| == |s.book.connections| + 1
  {
    var cs, cs' := s.book.connections, DeliveryBook.Open(s.book, l.nextId, ipGeneration).connections;
    assert cs'.Keys == cs.Keys + {l.nextId};
    assert |cs| == |cs.Keys| && |cs'| == |cs'.Keys|;
    if !l.wasChecked { SendKeepsOrderly(l.messages, WebhookVerified); }
  }

  lemma RoomKept(l: Life, s: State)
    ensures Room(Check(l), s) == Room(l, s) && (Running(l) ==> Running(Check(l)))
  {
  }

  lemma SocketsFit(l: Life, s: State, n: nat)
    requires Fits(l, s) && n <= l.readySockets
    ensures var l' := l.(readySockets := n); Fits(l', s) && (n < l.readySockets ==> Room(l', s) > 0)
  {
  }

  /** A proxy's answer for a pending socket. */
  lemma AnswerSocketFits(l: Life, s: State, id: int)
    requires Fits(l, s) && id in l.pendingSockets
    ensures id < l.nextId
    ensures Fits(l.(pendingSockets := l.pendingSockets - {id}), s)
    ensures Fits(l.(pendingSockets := l.pendingSockets - {id}, readySockets := l.readySockets + 1), s)
  {
  }

  /** A socket that a proxy opens, when there is room for one. */
  lemma SocketFits(l: Life, s: State)
    requires Fits(l, s) && Running(l) && Room(l, s) > 0
    ensures Fits(l.(pendingSockets := l.pendingSockets + {l.nextId}, nextId := l.nextId + 1), s)
  {
  }

  /** A connection of its own, a socket behind the proxy, or a reported failure. */
  predicate Connected(l: Life, l': Life, ok: bool, proxied: bool) {
    if ok then !proxied && l' == Check(l.(nextId := l.nextId + 1))
    else l' == Fail(SayError(l))
         || (proxied && l' == Check(l).(pendingSockets := l.pendingSockets + {l.nextId}, nextId := l.nextId + 1))
  }

  /** A connection or a socket behind the proxy verifies the webhook, which the owner
      hears of once; without either, an error is told if the webhook was verified, and
      closes the actor if not. */
  lemma ConnectedTells(l: Life, l': Life, ok: bool, proxied: bool)
    requires Connected(l, l', ok, proxied) && Running(l) && l.callbackAlive && l.nextId !in l.pendingSockets
    ensures ok ==> !proxied && l'.pendingSockets == l.pendingSockets
    ensures ok || l'.pendingSockets != l.pendingSockets ==>
              l'.wasChecked && l'.messages == l.messages + if l.wasChecked then [] else [WebhookVerified]
    ensures !ok && l'.pendingSockets != l.pendingSockets ==>
              proxied && l'.pendingSockets == l.pendingSockets + {l.nextId}
    ensures !ok && l'.pendingSockets == l.pendingSockets ==>
              && l'.stopFlag == !l.wasChecked
              && l'.messages == l.messages + [if l.wasChecked then WebhookError else WebhookClosed(false)]
  {
  }

  lemma ConnectedFields(l: Life, l': Life, ok: bool, proxied: bool)
    requires Connected(l, l', ok, proxied)
    ensures l'.wakeupAt == l.wakeupAt && l'.readySockets == l.readySockets && l'.stopped == l.stopped
    ensures l.nextId <= l'.nextId <= l.nextId + 1
    ensures NewSocketsOnly(l.pendingSockets, l.nextId, l'.pendingSockets)
    ensures ok ==> l'.wasChecked && l'.pendingSockets == l.pendingSockets && l'.stopFlag == l.stopFlag
    ensures |l'.pendingSockets| <= |l.pendingSockets| + 1
    ensures l'.stopFlag && !l.stopFlag ==> !l.wasChecked
  {
    hide Check, Fail, SayError;
    CheckFields(l);
    CheckFields(l.(nextId := l.nextId + 1));
    FailFields(SayError(l));
    ErrorFields(l);
  }

  lemma CheckFields(l: Life)
    ensures var c := Check(l);
      c == l.(messages := c.messages, wasChecked := true)
  {
  }

  lemma FailFields(l: Life)
    ensures var f := Fail(l);
      && f == l.(messages := f.messages, callbackAlive := f.callbackAlive, stopFlag := f.stopFlag)
      && (f.stopFlag && !l.stopFlag ==> !l.wasChecked)
  {
  }

  lemma ErrorFields(l: Life)
    ensures SayError(l) == l.(messages := SayError(l).messages)
  {
  }

  /** Sockets are added only under numbers from `first` on. */
  predicate NewSocketsOnly(before: set<int>, first: int, after: set<int>) {
    forall p | p in after :: p in before || first <= p
  }

  lemma NewSocketsCompose(a: set<int>, first: int, b: set<int>, next: int, c: set<int>)
    requires NewSocketsOnly(a, first, b) && first <= next && NewSocketsOnly(b, next, c)
    ensures NewSocketsOnly(a, first, c)
  {
  }

  /** How many connections the actor wants, by the number of its queues and
      whether an update was delivered in the last seconds. */
  function Needed(queueCount: nat, maxConnections: int, wasChecked: bool, recent: bool): int {
    var wanted: int := if !wasChecked then 1 else Min(queueCount, maxConnections);
    if recent then (if wanted == 0 then 1 else wanted) else Min(wanted, 1)
  }

  lemma NeedsOne(queueCount: nat, maxConnections: int, wasChecked: bool, recent: bool)
    requires 0 < queueCount && 0 < maxConnections
    ensures Needed(queueCount, maxConnections, wasChecked, recent) >= 1
  {
  }

  function Most(a: int, b: int): int { if a < b then b else a }

  function MinNat(a: nat, b: nat): nat { if a <= b then a else b }
}
