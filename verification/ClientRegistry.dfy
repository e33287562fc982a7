/** The registry of bots and its shutdown, as a state machine over values. */
module ClientRegistry {
  datatype Client = Client(key: string, tqueueId: int)

  /** The manager's own state, and then what has become of the world: clients that
      announced themselves as active, clients told to close, how often the databases
      were closed, and the close promises that were fulfilled. */
  datatype Registry = Registry(
    clients: map<nat, Client>,
    idOf: map<string, nat>,
    activeCount: map<int, nat>,
    closing: bool,
    promises: seq<nat>,
    active: set<nat>,
    told: set<nat>,
    dbCloses: nat,
    fulfilled: seq<nat>,
    stopped: bool)

  datatype Event =
    | Create(key: string, id: nat, tqueueId: int)
    | Activate(id: nat)
    | Deactivate(id: nat)
    | Close(promise: nat)
    | HungUp(id: nat)
    | DbClosed

  const EMPTY := Registry(map[], map[], map[], false, [], {}, {}, 0, [], false)

  function Count(counts: map<int, nat>, q: int): nat {
    if q in counts then counts[q] else 0
  }

  function WithCount(counts: map<int, nat>, q: int, n: nat): map<int, nat> {
    if n == 0 then counts - {q} else counts[q := n]
  }

  /** When an event can happen: clients announce activity and its end in turns, hang
      up when inactive, and the databases report that they are closed once asked. */
  predicate Enabled(s: Registry, e: Event) {
    && !s.stopped
    && match e
       case Create(key, id, tqueueId) => !s.closing && key !in s.idOf && id !in s.clients && tqueueId != 0
       case Activate(id) => id in s.clients && id !in s.active
       case Deactivate(id) => id in s.active && id in s.clients
       case Close(_) => true
       case HungUp(id) => id in s.clients && id !in s.active
       case DbClosed => s.dbCloses > 0
  }

  function BeginDbClose(s: Registry): Registry {
    if s.closing && s.clients == map[] then s.(dbCloses := s.dbCloses + 1) else s
  }

  function Apply(s: Registry, e: Event): Registry
    requires Enabled(s, e)
  {
    match e
    case Create(key, id, tqueueId) =>
      s.(clients := s.clients[id := Client(key, tqueueId)], idOf := s.idOf[key := id])
    case Activate(id) =>
      var q := s.clients[id].tqueueId;
      s.(active := s.active + {id}, activeCount := WithCount(s.activeCount, q, Count(s.activeCount, q) + 1))
    case Deactivate(id) =>
      var q := s.clients[id].tqueueId;
      s.(active := s.active - {id},
         activeCount := WithCount(s.activeCount, q,
                                   if Count(s.activeCount, q) == 0 then 0 else Count(s.activeCount, q) - 1))
    case Close(promise) =>
      var asked := s.(promises := s.promises + [promise]);
      if s.closing then asked else BeginDbClose(asked.(closing := true, told := s.clients.Keys))
    case HungUp(id) =>
      BeginDbClose(s.(clients := s.clients - {id}, idOf := s.idOf - {s.clients[id].key}))
    case DbClosed =>
      s.(fulfilled := s.fulfilled + s.promises, promises := [], stopped := true)
  }

  // ---------- What every state keeps ----------

  /** The two maps are inverse to each other. */
  ghost predicate Mirror(clients: map<nat, Client>, idOf: map<string, nat>) {
    && (forall id | id in clients :: clients[id].key in idOf && idOf[clients[id].key] == id)
    && (forall key | key in idOf :: idOf[key] in clients && clients[idOf[key]].key == key)
  }

  function ActiveOn(s: Registry, q: int): set<nat> {
    set id | id in s.active && id in s.clients && s.clients[id].tqueueId == q
  }

  /** The counters are exactly the numbers of active clients, and are kept only for
      queues that have one. */
  ghost predicate Counted(s: Registry) {
    && s.active <= s.clients.Keys
    && (forall q :: Count(s.activeCount, q) == |ActiveOn(s, q)|)
    && (forall q | q in s.activeCount :: s.activeCount[q] > 0)
  }

  /** The databases are closed once, when the last client is gone after a request to
      close, and no promise is fulfilled before they are. */
  ghost predicate ShutdownOnce(s: Registry) {
    && s.dbCloses == (if s.closing && s.clients == map[] then 1 else 0)
    && (s.closing ==> s.clients.Keys <= s.told)
    && (!s.closing ==> s.promises == [])
    && (if s.stopped then s.closing && s.clients == map[] && s.promises == [] else s.fulfilled == [])
  }

  ghost predicate Inv(s: Registry) {
    && Mirror(s.clients, s.idOf)
    && (forall id | id in s.clients :: s.clients[id].tqueueId != 0)
    && Counted(s)
    && ShutdownOnce(s)
  }

  /** One client of queue `q` more or less. */
  lemma CountedAfter(s: Registry, t: Registry, id: nat, q: int, change: int)
    requires Counted(s) && id in s.clients && s.clients[id].tqueueId == q && t.clients == s.clients
    requires if id in s.active then change == -1 && t.active == s.active - {id}
             else change == 1 && t.active == s.active + {id}
    requires Count(s.activeCount, q) + change >= 0
             ==> t.activeCount == WithCount(s.activeCount, q, Count(s.activeCount, q) + change)
    ensures Counted(t) && Count(s.activeCount, q) + change >= 0
  {
    if change == 1 {
      assert ActiveOn(t, q) == ActiveOn(s, q) + {id};
    } else {
      assert id in ActiveOn(s, q);
      assert ActiveOn(t, q) == ActiveOn(s, q) - {id};
    }
    forall p
      ensures Count(t.activeCount, p) == |ActiveOn(t, p)|
    {
      if p != q {
        assert ActiveOn(t, p) == ActiveOn(s, p);
      }
    }
  }

  lemma CountedUnmoved(s: Registry, t: Registry)
    requires Counted(s) && t.activeCount == s.activeCount && t.active == s.active && s.active <= t.clients.Keys
    requires forall id | id in s.active :: t.clients[id] == s.clients[id]
    ensures Counted(t)
  {
    forall q
      ensures ActiveOn(t, q) == ActiveOn(s, q)
    {
    }
  }

  lemma StepKeepsInv(s: Registry, e: Event)
    requires Inv(s) && Enabled(s, e)
    ensures Inv(Apply(s, e))
  {
    var t := Apply(s, e);
    match e
    case Activate(id) => CountedAfter(s, t, id, s.clients[id].tqueueId, 1);
    case Deactivate(id) => CountedAfter(s, t, id, s.clients[id].tqueueId, -1);
    case _ => CountedUnmoved(s, t);
  }

  /** What the last hang-up checks: nobody is counted as active. */
  lemma NobodyActive(s: Registry)
    requires Inv(s) && s.clients == map[]
    ensures s.activeCount == map[] && s.idOf == map[]
  {
    forall q
      ensures q !in s.activeCount
    {
      assert ActiveOn(s, q) == {};
    }
  }

  // ---------- Whole runs ----------

  predicate ValidRun(s: Registry, run: seq<Event>)
    decreases |run|, 0
  {
    run == [] || (ValidRun(s, run[..|run| - 1]) && Enabled(After(s, run[..|run| - 1]), run[|run| - 1]))
  }

  function After(s: Registry, run: seq<Event>): Registry
    requires ValidRun(s, run)
    decreases |run|, 1
  {
    if run == [] then s else Apply(After(s, run[..|run| - 1]), run[|run| - 1])
  }

  lemma {:induction false} RunKeepsInv(s: Registry, run: seq<Event>)
    requires Inv(s) && ValidRun(s, run)
    ensures Inv(After(s, run))
  {
    if run != [] {
      RunKeepsInv(s, run[..|run| - 1]);
      StepKeepsInv(After(s, run[..|run| - 1]), run[|run| - 1]);
    }
  }

  /** The promises of all requests to close, in the order of the requests. */
  function Requests(run: seq<Event>): seq<nat> {
    if run == [] then []
    else Requests(run[..|run| - 1]) + if run[|run| - 1].Close? then [run[|run| - 1].promise] else []
  }

  /** Every accepted promise is fulfilled exactly once: none is lost or doubled while
      the manager waits, and all of them are fulfilled when it stops. */
  lemma {:induction false} EveryPromiseOnce(run: seq<Event>)
    requires ValidRun(EMPTY, run)
    ensures var s := After(EMPTY, run);
      && s.fulfilled + s.promises == Requests(run)
      && (s.stopped ==> s.fulfilled == Requests(run))
  {
    if run != [] {
      EveryPromiseOnce(run[..|run| - 1]);
      PromisesMove(After(EMPTY, run[..|run| - 1]), run[|run| - 1]);
    }
    RunKeepsInv(EMPTY, run);
    hide Mirror, Counted, Apply, Enabled;
  }

  lemma PromisesMove(s: Registry, e: Event)
    requires Enabled(s, e)
    ensures var t := Apply(s, e);
      t.fulfilled + t.promises == s.fulfilled + s.promises + if e.Close? then [e.promise] else []
  {
  }

  lemma {:induction false} ClosingStays(run: seq<Event>, i: nat)
    requires ValidRun(EMPTY, run) && i < |run| && run[i].Close?
    ensures After(EMPTY, run).closing
  {
    if i < |run| - 1 {
      ClosingStays(run[..|run| - 1], i);
    }
  }

  /** No client is created after a request to close. */
  lemma {:induction false} NoClientAfterClose(run: seq<Event>, i: nat, j: nat)
    requires ValidRun(EMPTY, run) && i < j < |run| && run[i].Close?
    ensures !run[j].Create?
  {
    if j < |run| - 1 {
      NoClientAfterClose(run[..|run| - 1], i, j);
    } else {
      ClosingStays(run[..j], i);
    }
  }

  function HangUps(run: seq<Event>): nat {
    if run == [] then 0 else HangUps(run[..|run| - 1]) + if run[|run| - 1].HungUp? then 1 else 0
  }

  /** A shutdown is over when the clients that were left have hung up, one hang-up
      each: not earlier, and with the databases closed once by then. */
  lemma {:induction false} ShutdownWaitsForEveryClient(s: Registry, run: seq<Event>)
    requires Inv(s) && s.closing && ValidRun(s, run)
    ensures After(s, run).closing && |After(s, run).clients| + HangUps(run) == |s.clients|
    ensures After(s, run).dbCloses == if HangUps(run) == |s.clients| then 1 else 0
  {
    if run != [] {
      var before, e := After(s, run[..|run| - 1]), run[|run| - 1];
      ShutdownWaitsForEveryClient(s, run[..|run| - 1]);
      if e.HungUp? {
        assert (before.clients - {e.id}).Keys == before.clients.Keys - {e.id};
      }
    }
    RunKeepsInv(s, run);
    hide Mirror, Counted;
    assert |After(s, run).clients| == 0 <==> After(s, run).clients == map[];
  }
}
