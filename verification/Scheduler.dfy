/** The delivery scheduler of the webhook actor as a state machine: its state,
    the atomic steps it and its environment take, and the invariant that every
    step keeps. */
module Scheduler {
  import opened FiniteSets
  import opened UnixClock
  import opened RetryPolicy
  import opened DeliveryBook

  /** Queue ids from here up are handed out by the actor itself. */
  const UNIQUE_QUEUES := 0x1000_0000_0000_0000

  datatype LogEvent = LogEvent(expiresAt: int, extra: int)

  /** `log` and `tail` are the persistent queue the updates come from. `highest`
      is history: the highest id loaded so far. */
  datatype State = State(
    now: int,
    unixDiff: int,
    log: map<int, LogEvent>,
    tail: int,
    offset: int,
    drained: bool,
    uniqueQueueId: int,
    maxLoaded: nat,
    highest: int,
    book: Book)

  /** The atomic steps. The first three belong to the environment: the clock
      moves, an event is appended to the log, events leave the log unsent. */
  datatype Step =
    | Ticked(now: int, unixDiff: int)
    | Pushed(id: int, event: LogEvent)
    | Purged(ids: set<int>)
    | Woken
    | Rewound(head: int)
    | Drained
    | Loaded(id: int, queueId: int)
    | Opened(conn: int, ipGeneration: int)
    | Closed(conn: int)
    | Sent(conn: int, id: int)
    | Parked(id: int)
    | Succeeded(conn: int, id: int, queueId: int, keep: bool)
    | Retried(conn: int, id: int, failure: Failure, unixTime: int, expiresAt: int, keep: bool)
    | Expired(conn: int, id: int, queueId: int, failure: Failure, keep: bool)

  // ---------- Observations ----------

  function Unix(s: State): int { UnixTime(s.unixDiff, s.now) }

  /** The log offers the event: it is there and has not expired. */
  predicate Live(s: State, id: int) {
    id in s.log && s.log[id].expiresAt >= Unix(s)
  }

  function QueueOf(s: State, event: LogEvent): int {
    if event.extra == 0 then s.uniqueQueueId else event.extra
  }

  /** The update is the head of the queue that the index puts first, and its
      wake-up has come. */
  predicate Due(s: State, id: int) {
    && IsHead(s.book, id)
    && IsFirst(s.book.queues, Key(s.book.updates, id))
    && s.book.updates[id].wakeupAt <= s.now
  }

  /** The first live event from the offset on that is not loaded. */
  predicate NextToLoad(s: State, id: int) {
    && Live(s, id) && id !in s.book.updates && s.offset <= id
    && (forall j | j in s.log && s.offset <= j < id && Live(s, j) :: j in s.book.updates)
  }

  predicate Carried(s: State, conn: int, id: int) {
    id != NO_EVENT && Carries(s.book.connections, conn, id) && id in s.book.updates
  }

  /** The retry would come after the update has expired. */
  predicate TooLate(s: State, id: int, f: Failure)
    requires id in s.book.updates
  {
    Unix(s) + EffectiveDelay(s.book.updates[id].backoff, f) > s.book.updates[id].expiresAt
  }

  // ---------- Steps ----------

  ghost predicate Enabled(s: State, e: Step) {
    match e
    case Ticked(now, unixDiff) => s.now <= now && s.unixDiff <= unixDiff
    case Pushed(id, event) => s.tail <= id && event.extra < UNIQUE_QUEUES && event.expiresAt <= MAX_INT32
    case Purged(ids) => true
    case Woken => true
    case Rewound(head) => head <= s.tail && forall id | id in s.log :: head <= id
    case Drained => forall id | id in s.log && s.offset <= id :: !Live(s, id)
    case Loaded(id, queueId) =>
      && NextToLoad(s, id)
      && queueId == QueueOf(s, s.log[id])
      && (queueId in s.book.queueUpdates || |s.book.queueUpdates| < s.maxLoaded)
    case Opened(conn, _) => conn !in s.book.connections
    case Closed(conn) => conn in s.book.ready
    case Sent(conn, id) => conn in s.book.ready && conn in s.book.connections && Due(s, id)
    case Parked(id) => s.book.ready != {} && Due(s, id)
    case Succeeded(conn, id, queueId, _) =>
      Carried(s, conn, id) && queueId == s.book.updates[id].queueId
    case Retried(conn, id, f, unixTime, expiresAt, _) =>
      && Carried(s, conn, id) && Drawable(f) && !TooLate(s, id, f)
      && unixTime == Unix(s) && expiresAt == s.book.updates[id].expiresAt
    case Expired(conn, id, queueId, f, _) =>
      && Carried(s, conn, id) && Drawable(f) && TooLate(s, id, f)
      && queueId == s.book.updates[id].queueId
  }

  function Load(s: State, id: int): State
    requires id in s.log
  {
    var e := s.log[id];
    s.(offset := id + 1,
       uniqueQueueId := if e.extra == 0 then s.uniqueQueueId + 1 else s.uniqueQueueId,
       highest := id,
       book := Add(s.book, id, Update(e.expiresAt, 0, s.now, FRESH, QueueOf(s, e))))
  }

  /** Finish an update: it leaves the actor and the log. */
  function DropEvent(s: State, id: int): State
    requires id in s.book.updates
  {
    s.(book := Drop(s.book, id), log := s.log - {id})
  }

  function Finish(s: State, conn: int, id: int, keep: bool): State
    requires id in s.book.updates && conn in s.book.connections
  {
    var dropped := DropEvent(s, id);
    dropped.(book := Release(dropped.book, conn, keep))
  }

  ghost function Apply(s: State, e: Step): State
    requires Enabled(s, e)
  {
    match e
    case Ticked(now, unixDiff) => s.(now := now, unixDiff := unixDiff)
    case Pushed(id, event) => s.(log := s.log[id := event], tail := id + 1)
    case Purged(ids) => s.(log := s.log - ids)
    case Woken => s.(drained := false)
    case Rewound(head) => s.(offset := head)
    case Drained => s.(drained := true)
    case Loaded(id, _) => Load(s, id)
    case Opened(conn, ipGeneration) => s.(book := Open(s.book, conn, ipGeneration))
    case Closed(conn) => s.(book := Close(s.book, conn))
    case Sent(conn, id) => s.(book := Send(s.book, conn, id, s.now))
    case Parked(id) => s.(book := Park(s.book, id, s.now))
    case Succeeded(conn, id, _, keep) => Finish(s, conn, id, keep)
    case Retried(conn, id, f, _, _, keep) =>
      s.(book := Release(Delay(s.book, id, f, s.now), conn, keep))
    case Expired(conn, id, _, _, keep) => Finish(s, conn, id, keep)
  }

  // ---------- The invariant ----------

  predicate LogWellFormed(s: State) {
    && 1 <= s.tail
    && forall id | id in s.log ::
         0 < id < s.tail && s.log[id].extra < UNIQUE_QUEUES && s.log[id].expiresAt <= MAX_INT32
  }

  /** Unexpired log events below the offset, or below anything ever loaded, are
      loaded; a finished one has left the log. */
  ghost predicate LoadingComplete(s: State) {
    && 0 <= s.highest < s.tail && s.offset <= s.tail
    && (forall id | id in s.book.updates :: 0 < id <= s.highest)
    && (forall id | Live(s, id) && (id < s.offset || id <= s.highest) :: id in s.book.updates)
  }

  /** Queue ids made up for updates without one are used for that one only. */
  predicate UniqueQueuesSingle(s: State) {
    && UNIQUE_QUEUES <= s.uniqueQueueId
    && forall q | q in s.book.queueUpdates ::
         q < UNIQUE_QUEUES || (q < s.uniqueQueueId && |s.book.queueUpdates[q]| == 1)
  }

  ghost predicate LoaderInv(s: State) {
    && LogWellFormed(s)
    && LoadingComplete(s)
    && UniqueQueuesSingle(s)
    && |s.book.queueUpdates| <= s.maxLoaded
  }

  ghost predicate Inv(s: State) {
    LoaderInv(s) && Consistent(s.book)
  }

  /** A freshly started actor over an arbitrary log. */
  predicate Initial(s: State) {
    && s.book == EMPTY
    && s.offset == NO_EVENT && !s.drained && s.highest == NO_EVENT
    && s.uniqueQueueId == UNIQUE_QUEUES
    && LogWellFormed(s)
  }

  lemma InitialInv(s: State)
    requires Initial(s)
    ensures Inv(s)
  {
    EmptyConsistent();
  }

  // ---------- Preservation ----------

  /** A carried update can be finished or delayed. */
  lemma CarriedIsHead(s: State, conn: int, id: int)
    requires Inv(s) && Carried(s, conn, id)
    ensures IsHead(s.book, id) && conn in s.book.connections && QueuesHoldUpdates(s.book)
  {
    hide LoaderInv, QueuesHoldUpdates, UpdatesQueued, IndexKeyed, CarriedOnce, AllPlaced;
  }

  lemma EnvironmentKeepsInv(s: State, e: Step)
    requires Inv(s) && Enabled(s, e)
    requires e.Ticked? || e.Pushed? || e.Purged? || e.Woken? || e.Rewound? || e.Drained?
    ensures Inv(Apply(s, e))
  {
    hide Consistent;
    var s' := Apply(s, e);
    UnixTimeMonotone(s.unixDiff, s.now, s'.unixDiff, s'.now);
    assert forall id | Live(s', id) && id < s.tail :: Live(s, id);
  }

  /** A new event comes after everything loaded, so it goes to the end of its
      queue; a made-up queue id is new. */
  lemma LoadIsNew(s: State, id: int, q: int)
    requires Inv(s) && Enabled(s, Loaded(id, q))
    ensures id in s.log && s.highest < id < s.tail && q != 0
    ensures s.log[id].extra == 0 ==> q !in s.book.queueUpdates
    ensures Addable(s.book, id, Update(s.log[id].expiresAt, 0, s.now, FRESH, q))
  {
    hide Consistent;
  }

  lemma LoadKeepsLoader(s: State, id: int, q: int)
    requires LoaderInv(s) && Enabled(s, Loaded(id, q)) && s.highest < id
    ensures LoaderInv(Load(s, id))
  {
    var s' := Load(s, id);
    assert forall j | Live(s', j) :: Live(s, j);
    assert s'.book.queueUpdates.Keys == s.book.queueUpdates.Keys + {q};
  }

  lemma LoadKeepsInv(s: State, id: int, q: int)
    requires Inv(s) && Enabled(s, Loaded(id, q))
    ensures Inv(Load(s, id))
  {
    LoadIsNew(s, id, q);
    AddKeepsConsistent(s.book, id, Update(s.log[id].expiresAt, 0, s.now, FRESH, q));
    LoadKeepsLoader(s, id, q);
  }

  lemma DropKeepsLoader(s: State, id: int)
    requires LoaderInv(s) && QueuesHoldUpdates(s.book) && IsHead(s.book, id)
    ensures LoaderInv(DropEvent(s, id))
  {
    var s' := DropEvent(s, id);
    assert forall j | Live(s', j) :: Live(s, j) && j != id;
    assert s'.book.queueUpdates.Keys <= s.book.queueUpdates.Keys;
    SubsetSize(s'.book.queueUpdates.Keys, s.book.queueUpdates.Keys);
  }

  lemma FinishKeepsInv(s: State, conn: int, id: int, keep: bool)
    requires Inv(s) && Carried(s, conn, id)
    ensures IsHead(s.book, id) && Inv(Finish(s, conn, id, keep))
  {
    hide Consistent, LoaderInv, QueuesHoldUpdates, IsHead;
    CarriedIsHead(s, conn, id);
    FinishKeepsConsistent(s.book, conn, id, keep);
    DropKeepsLoader(s, id);
    LoaderIgnores(DropEvent(s, id), Release(Drop(s.book, id), conn, keep));
  }

  /** Steps that neither load nor finish an update are none of the loader's
      business. */
  lemma LoaderIgnores(s: State, b: Book)
    requires LoaderInv(s)
    requires b.queueUpdates == s.book.queueUpdates && b.updates.Keys == s.book.updates.Keys
    ensures LoaderInv(s.(book := b))
  {
    assert forall j :: Live(s.(book := b), j) <==> Live(s, j);
  }

  lemma ConnectionStepKeepsInv(s: State, e: Step)
    requires Inv(s) && Enabled(s, e)
    requires e.Opened? || e.Closed? || e.Sent? || e.Parked?
    ensures Inv(Apply(s, e))
  {
    hide Consistent, LoaderInv;
    match e
    case Opened(conn, ipGeneration) =>
      IdleChangeKeepsConsistent(s.book, Open(s.book, conn, ipGeneration), conn);
      LoaderIgnores(s, Open(s.book, conn, ipGeneration));
    case Closed(conn) =>
      IdleChangeKeepsConsistent(s.book, Close(s.book, conn), conn);
      LoaderIgnores(s, Close(s.book, conn));
    case Sent(conn, id) =>
      SendKeepsConsistent(s.book, conn, id, s.now);
      LoaderIgnores(s, Send(s.book, conn, id, s.now));
    case Parked(id) =>
      ParkKeepsConsistent(s.book, id, s.now);
      LoaderIgnores(s, Park(s.book, id, s.now));
  }

  lemma RetryKeepsInv(s: State, conn: int, id: int, f: Failure, keep: bool)
    requires Drawable(f) && Inv(s) && Carried(s, conn, id)
    ensures Inv(s.(book := Release(Delay(s.book, id, f, s.now), conn, keep)))
  {
    hide Consistent, LoaderInv;
    RetryKeepsConsistent(s.book, conn, id, f, s.now, keep);
    LoaderIgnores(s, Release(Delay(s.book, id, f, s.now), conn, keep));
  }

  /** Every step of the actor or of its environment keeps the invariant. */
  lemma StepKeepsInv(s: State, e: Step)
    requires Inv(s) && Enabled(s, e)
    ensures Inv(Apply(s, e))
  {
    hide Inv;
    match e
    case Loaded(id, q) => LoadKeepsInv(s, id, q);
    case Succeeded(conn, id, _, keep) => FinishKeepsInv(s, conn, id, keep);
    case Retried(conn, id, f, _, _, keep) => RetryKeepsInv(s, conn, id, f, keep);
    case Expired(conn, id, _, _, keep) => FinishKeepsInv(s, conn, id, keep);
    case _ =>
      if e.Opened? || e.Closed? || e.Sent? || e.Parked? {
        ConnectionStepKeepsInv(s, e);
      } else {
        EnvironmentKeepsInv(s, e);
      }
  }
}
