/** The life of a query: it is counted when a bot takes it, answered at most once,
    and released once; releasing it is what sends the answer. */
module QueryLifecycle {
  import opened FiniteSets
  import opened Options

  datatype Phase = Waiting | Ok | Error

  /** `statActor` is the bot whose statistics the query is counted in. */
  datatype Rec = Rec(
    container: seq<nat>,
    files: seq<nat>,
    promise: Option<nat>,
    statActor: Option<nat>,
    phase: Phase,
    code: int,
    retryAfter: int,
    released: bool)

  datatype Event =
    | Request(bot: nat, size: nat, fileCount: nat, filesSize: nat, filesMaxSize: nat)
    | Response(bot: nat, ok: bool, size: nat, fileCount: nat, filesSize: nat)

  const TOO_MANY_REQUESTS := 429
  const RETRY_AFTER_DROP := 5

  // ---------- Sizes ----------

  function Sum(sizes: seq<nat>): nat {
    if sizes == [] then 0 else Sum(sizes[..|sizes| - 1]) + sizes[|sizes| - 1]
  }

  function Max(sizes: seq<nat>): nat {
    if sizes == [] then 0
    else
      var before, last := Max(sizes[..|sizes| - 1]), sizes[|sizes| - 1];
      if before < last then last else before
  }

  lemma {:induction false} MaxIsGreatest(sizes: seq<nat>)
    ensures forall i | 0 <= i < |sizes| :: sizes[i] <= Max(sizes)
    ensures sizes != [] ==> Max(sizes) in sizes
    ensures Max(sizes) <= Sum(sizes)
  {
    if sizes != [] {
      MaxIsGreatest(sizes[..|sizes| - 1]);
    }
  }

  lemma {:induction false} SumJoins(a: seq<nat>, b: seq<nat>)
    ensures Sum(a + b) == Sum(a) + Sum(b) && Sum([]) == 0
    ensures |b| == 1 ==> Sum(b) == b[0]
  {
    if b == [] {
      assert a + b == a;
    } else {
      assert (a + b)[..|a + b| - 1] == a + b[..|b| - 1];
      SumJoins(a, b[..|b| - 1]);
    }
  }

  // ---------- One query ----------

  function RequestEvents(r: Rec): seq<Event> {
    match r.statActor
    case None => []
    case Some(bot) => [Request(bot, Sum(r.container), |r.files|, Sum(r.files), Max(r.files))]
  }

  function ResponseEvents(r: Rec, answerSize: nat): seq<Event> {
    match r.statActor
    case None => []
    case Some(bot) => [Response(bot, r.phase == Ok, answerSize, |r.files|, Sum(r.files))]
  }

  function Answered(r: Rec, ok: bool, code: int, retryAfter: int): Rec {
    r.(phase := if ok then Ok else Error, code := code, retryAfter := retryAfter)
  }

  /** A query that is dropped without an answer while somebody waits for one. */
  predicate NeedsRetryAnswer(r: Rec) {
    r.promise.Some? && r.phase == Waiting
  }

  function Released(r: Rec): Rec {
    (if NeedsRetryAnswer(r) then Answered(r, false, TOO_MANY_REQUESTS, RETRY_AFTER_DROP) else r).(released := true)
  }

  // ---------- All queries ----------

  datatype Delivery = Delivery(promise: nat, query: nat, code: int, retryAfter: int)

  /** `log` is what the statistics were told, `delivered` what the promises were
      fulfilled with. */
  datatype World = World(queries: map<nat, Rec>, log: seq<Event>, delivered: seq<Delivery>)

  datatype Action =
    | Construct(container: seq<nat>, files: seq<nat>, promise: Option<nat>)
    | SetStatActor(bot: nat)
    | Answer(ok: bool, code: int, retryAfter: int, size: nat)
    | Release(size: nat)

  const NOTHING := World(map[], [], [])

  function NewRec(container: seq<nat>, files: seq<nat>, promise: Option<nat>): Rec {
    Rec(container, files, promise, None, Waiting, 0, 0, false)
  }

  /** A promise belongs to one query, and only the holder of a query acts on it. */
  predicate Enabled(w: World, id: nat, a: Action) {
    match a
    case Construct(_, _, promise) =>
      id !in w.queries && (promise.Some? ==> forall q | q in w.queries :: w.queries[q].promise != promise)
    case SetStatActor(bot) =>
      id in w.queries && !w.queries[id].released && w.queries[id].phase == Waiting && w.queries[id].statActor.None?
    case Answer(_, _, _, _) => id in w.queries && !w.queries[id].released && w.queries[id].phase == Waiting
    case Release(_) => id in w.queries && !w.queries[id].released
  }

  function DeliveryOf(r: Rec, id: nat): seq<Delivery> {
    match r.promise
    case None => []
    case Some(p) => [Delivery(p, id, r.code, r.retryAfter)]
  }

  function Apply(w: World, id: nat, a: Action): World
    requires Enabled(w, id, a)
  {
    match a
    case Construct(container, files, promise) => w.(queries := w.queries[id := NewRec(container, files, promise)])
    case SetStatActor(bot) =>
      var r := w.queries[id].(statActor := Some(bot));
      w.(queries := w.queries[id := r], log := w.log + RequestEvents(r))
    case Answer(ok, code, retryAfter, size) =>
      var r := Answered(w.queries[id], ok, code, retryAfter);
      w.(queries := w.queries[id := r], log := w.log + ResponseEvents(r, size))
    case Release(size) =>
      var r := Released(w.queries[id]);
      World(w.queries[id := r],
            w.log + (if NeedsRetryAnswer(w.queries[id]) then ResponseEvents(r, size) else []),
            w.delivered + DeliveryOf(r, id))
  }

  /** Turning the query `id` from `before` into `after`, telling the statistics and
      the promises so much, is the action `a`, whatever the other queries are. */
  ghost predicate IsAction(before: Rec, id: nat, a: Action, after: Rec, sent: seq<Event>, delivered: seq<Delivery>) {
    forall w: World | id in w.queries && w.queries[id] == before ::
      && Enabled(w, id, a)
      && Apply(w, id, a) == World(w.queries[id := after], w.log + sent, w.delivered + delivered)
  }

  // ---------- The counters ----------

  /** Requests in progress, their files and the bytes of those. */
  datatype Work = Work(requests: int, files: int, bytes: int)

  const NO_WORK := Work(0, 0, 0)

  function Plus(a: Work, b: Work): Work {
    Work(a.requests + b.requests, a.files + b.files, a.bytes + b.bytes)
  }

  function Change(e: Event): Work {
    match e
    case Request(_, _, fileCount, filesSize, _) => Work(1, fileCount, filesSize)
    case Response(_, _, _, fileCount, filesSize) => Work(-1, 0 - fileCount, 0 - filesSize)
  }

  /** What an actor's counters are after the events; the actor of one bot gets the
      bot's events, its parent gets all. */
  function Counters(log: seq<Event>, bot: Option<nat>): Work {
    if log == [] then NO_WORK
    else
      var before, e := Counters(log[..|log| - 1], bot), log[|log| - 1];
      if bot == None || bot == Some(e.bot) then Plus(before, Change(e)) else before
  }

  function WorkOf(r: Rec): Work {
    Work(1, |r.files|, Sum(r.files))
  }

  /** Counted for the bot, and not answered. */
  predicate InProgress(r: Rec, bot: Option<nat>) {
    r.phase == Waiting && r.statActor.Some? && (bot == None || bot == r.statActor)
  }

  function Outstanding(queries: map<nat, Rec>, bot: Option<nat>): (ids: set<nat>)
    ensures ids <= queries.Keys
  {
    set id | id in queries && InProgress(queries[id], bot)
  }

  ghost function Total(queries: map<nat, Rec>, ids: set<nat>): (work: Work)
    requires ids <= queries.Keys
    ensures work.requests == |ids| && work.files >= 0 && work.bytes >= 0
    decreases |ids|
  {
    if ids == {} then NO_WORK
    else
      var id := Pick(ids);
      Plus(WorkOf(queries[id]), Total(queries, ids - {id}))
  }

  lemma {:induction false} TotalWithout(queries: map<nat, Rec>, ids: set<nat>, id: nat)
    requires ids <= queries.Keys && id in ids
    ensures Total(queries, ids) == Plus(WorkOf(queries[id]), Total(queries, ids - {id}))
    decreases |ids|
  {
    hide Total, Plus, WorkOf;
    var first := Pick(ids);
    TotalPicks(queries, ids);
    if first != id {
      TotalWithout(queries, ids - {first}, id);
      TotalWithout(queries, ids - {id}, first);
      assert ids - {first} - {id} == ids - {id} - {first};
      PlusSwaps(WorkOf(queries[first]), WorkOf(queries[id]), Total(queries, ids - {id} - {first}));
    }
  }

  lemma PlusNothing(a: Work)
    ensures Plus(NO_WORK, a) == a
  {
  }

  lemma TotalPicks(queries: map<nat, Rec>, ids: set<nat>)
    requires ids <= queries.Keys && ids != {}
    ensures Total(queries, ids) == Plus(WorkOf(queries[Pick(ids)]), Total(queries, ids - {Pick(ids)}))
  {
  }

  lemma PlusSwaps(a: Work, b: Work, rest: Work)
    ensures Plus(a, Plus(b, rest)) == Plus(b, Plus(a, rest))
  {
  }

  lemma {:induction false} TotalSame(queries: map<nat, Rec>, queries': map<nat, Rec>, ids: set<nat>)
    requires ids <= queries.Keys && ids <= queries'.Keys
    requires forall id | id in ids :: queries'[id].files == queries[id].files
    ensures Total(queries, ids) == Total(queries', ids)
    decreases |ids|
  {
    if ids != {} {
      TotalSame(queries, queries', ids - {Pick(ids)});
    }
  }

  // ---------- What every state keeps ----------

  /** The counters are the sums over the outstanding queries, for each bot and for
      all of them. */
  ghost predicate Conserved(w: World) {
    forall bot :: Counters(w.log, bot) == Total(w.queries, Outstanding(w.queries, bot))
  }

  /** Promises are fulfilled when their queries are released, with the answer that
      the query has by then, and at no other time. */
  ghost predicate AnsweredOnce(w: World) {
    && (forall id, id' | id in w.queries && id' in w.queries && id != id' && w.queries[id].promise.Some? ::
          w.queries[id].promise != w.queries[id'].promise)
    && (forall id | id in w.queries && w.queries[id].released && w.queries[id].promise.Some? ::
          w.queries[id].phase != Waiting && DeliveryOf(w.queries[id], id)[0] in w.delivered)
    && (forall i | 0 <= i < |w.delivered| ::
          var d := w.delivered[i];
          && d.query in w.queries && w.queries[d.query].released && w.queries[d.query].promise == Some(d.promise)
          && DeliveryOf(w.queries[d.query], d.query) == [d])
    && (forall i, j | 0 <= i < j < |w.delivered| :: w.delivered[i].promise != w.delivered[j].promise)
  }

  /** What one query adds to the counters at the moment. */
  function Share(queries: map<nat, Rec>, id: nat, bot: Option<nat>): Work {
    if id in queries && InProgress(queries[id], bot) then WorkOf(queries[id]) else NO_WORK
  }

  lemma TotalMoves(queries: map<nat, Rec>, id: nat, r: Rec, bot: Option<nat>)
    ensures Plus(Total(queries[id := r], Outstanding(queries[id := r], bot)), Share(queries, id, bot))
            == Plus(Total(queries, Outstanding(queries, bot)), Share(queries[id := r], id, bot))
  {
    hide Total, WorkOf, Outstanding, InProgress, Plus;
    var queries' := queries[id := r];
    var before, after := Outstanding(queries, bot), Outstanding(queries', bot);
    OutstandingMoves(queries, id, r, bot);
    TotalSplit(queries, before, id);
    TotalSplit(queries', after, id);
    TotalSame(queries, queries', before - {id});
    SwapShares(Share(queries, id, bot), Share(queries', id, bot), Total(queries, before - {id}));
  }

  lemma SwapShares(a: Work, b: Work, rest: Work)
    ensures Plus(Plus(b, rest), a) == Plus(Plus(a, rest), b)
  {
  }

  lemma OutstandingMoves(queries: map<nat, Rec>, id: nat, r: Rec, bot: Option<nat>)
    ensures Outstanding(queries[id := r], bot) - {id} == Outstanding(queries, bot) - {id}
    ensures id in Outstanding(queries, bot) <==> id in queries && InProgress(queries[id], bot)
    ensures id in Outstanding(queries[id := r], bot) <==> InProgress(r, bot)
  {
  }

  lemma TotalSplit(queries: map<nat, Rec>, ids: set<nat>, id: nat)
    requires ids <= queries.Keys
    ensures Total(queries, ids) == Plus(if id in ids then WorkOf(queries[id]) else NO_WORK, Total(queries, ids - {id}))
  {
    hide Total, WorkOf, Plus;
    PlusNothing(Total(queries, ids));
    if id in ids {
      TotalWithout(queries, ids, id);
    } else {
      assert ids - {id} == ids;
    }
  }

  lemma CountersMove(w: World, id: nat, a: Action, bot: Option<nat>)
    requires Enabled(w, id, a)
    ensures Plus(Counters(Apply(w, id, a).log, bot), Share(w.queries, id, bot))
            == Plus(Counters(w.log, bot), Share(Apply(w, id, a).queries, id, bot))
  {
    hide Counters, Sum, Max;
    LogGrows(w.log, Apply(w, id, a).log, bot);
  }

  lemma StepConserves(w: World, id: nat, a: Action)
    requires Conserved(w) && Enabled(w, id, a)
    ensures Conserved(Apply(w, id, a))
  {
    hide Apply, Enabled, Counters, Total, Outstanding, Share, Plus;
    var w' := Apply(w, id, a);
    OneQueryMoves(w, id, a);
    forall bot
      ensures Counters(w'.log, bot) == Total(w'.queries, Outstanding(w'.queries, bot))
    {
      CountersMove(w, id, a, bot);
      TotalMoves(w.queries, id, w'.queries[id], bot);
      PlusCancels(Counters(w'.log, bot), Total(w'.queries, Outstanding(w'.queries, bot)), Share(w.queries, id, bot));
    }
  }

  lemma OneQueryMoves(w: World, id: nat, a: Action)
    requires Enabled(w, id, a)
    ensures var w' := Apply(w, id, a);
      id in w'.queries && w'.queries == w.queries[id := w'.queries[id]]
  {
  }

  lemma PlusCancels(a: Work, b: Work, c: Work)
    requires Plus(a, c) == Plus(b, c)
    ensures a == b
  {
  }

  lemma LogGrows(log: seq<Event>, log': seq<Event>, bot: Option<nat>)
    requires log' == log || (|log'| == |log| + 1 && log <= log')
    ensures Counters(log', bot)
            == if log' == log || !(bot == None || bot == Some(log'[|log|].bot)) then Counters(log, bot)
               else Plus(Counters(log, bot), Change(log'[|log|]))
  {
    if log' != log {
      assert log'[..|log|] == log;
    }
  }

  lemma StepAnswersOnce(w: World, id: nat, a: Action)
    requires AnsweredOnce(w) && Enabled(w, id, a)
    ensures AnsweredOnce(Apply(w, id, a))
  {
    hide RequestEvents, ResponseEvents;
  }

  // ---------- Whole runs ----------

  datatype Step = Step(id: nat, action: Action)

  predicate ValidRun(run: seq<Step>)
    decreases |run|, 0
  {
    run == []
    || (ValidRun(run[..|run| - 1])
        && Enabled(After(run[..|run| - 1]), run[|run| - 1].id, run[|run| - 1].action))
  }

  function After(run: seq<Step>): World
    requires ValidRun(run)
    decreases |run|, 1
  {
    if run == [] then NOTHING
    else Apply(After(run[..|run| - 1]), run[|run| - 1].id, run[|run| - 1].action)
  }

  lemma {:induction false} RunConserves(run: seq<Step>)
    requires ValidRun(run)
    ensures Conserved(After(run)) && AnsweredOnce(After(run))
  {
    hide Conserved, AnsweredOnce;
    if run == [] {
      NothingConserved();
    } else {
      var before, last := After(run[..|run| - 1]), run[|run| - 1];
      RunConserves(run[..|run| - 1]);
      StepConserves(before, last.id, last.action);
      StepAnswersOnce(before, last.id, last.action);
    }
  }

  lemma NothingConserved()
    ensures Conserved(NOTHING) && AnsweredOnce(NOTHING)
  {
    forall bot: Option<nat>
      ensures Outstanding(NOTHING.queries, bot) == {}
    {
    }
  }

  /** In every state that the queries reach, the counters of a bot, and those of all
      bots together, are the sums over the queries in progress; so the checks that
      they are not negative cannot fail. */
  lemma CountersAreSums(run: seq<Step>, bot: Option<nat>)
    requires ValidRun(run)
    ensures var w := After(run); var c := Counters(w.log, bot);
      && c == Total(w.queries, Outstanding(w.queries, bot))
      && c.requests == |Outstanding(w.queries, bot)| && c.files >= 0 && c.bytes >= 0
  {
    RunConserves(run);
  }

  /** The same holds after each single event, which is when an actor checks it. */
  lemma {:induction false} EveryCheckHolds(run: seq<Step>, k: nat, bot: Option<nat>)
    requires ValidRun(run) && k <= |After(run).log|
    ensures var c := Counters(After(run).log[..k], bot); c.requests >= 0 && c.files >= 0 && c.bytes >= 0
  {
    hide Counters, Outstanding, Total;
    if k == |After(run).log| {
      assert After(run).log[..k] == After(run).log;
      CountersAreSums(run, bot);
    } else {
      var before := run[..|run| - 1];
      LogGrowsByOne(After(before), run[|run| - 1].id, run[|run| - 1].action);
      assert After(run).log[..k] == After(before).log[..k];
      EveryCheckHolds(before, k, bot);
    }
  }

  lemma LogGrowsByOne(w: World, id: nat, a: Action)
    requires Enabled(w, id, a)
    ensures w.log <= Apply(w, id, a).log && |Apply(w, id, a).log| <= |w.log| + 1
  {
  }

  /** The events that one bot's actor gets. */
  function EventsOf(log: seq<Event>, bot: nat): seq<Event> {
    if log == [] then []
    else EventsOf(log[..|log| - 1], bot) + if log[|log| - 1].bot == bot then [log[|log| - 1]] else []
  }

  lemma {:induction false} CountersOfBot(log: seq<Event>, bot: nat)
    ensures Counters(EventsOf(log, bot), None) == Counters(log, Some(bot))
  {
    if log != [] {
      var before, e := log[..|log| - 1], log[|log| - 1];
      CountersOfBot(before, bot);
      LogGrows(before, log, Some(bot));
      assert EventsOf(log, bot) == EventsOf(before, bot) + if e.bot == bot then [e] else [];
      LogGrows(EventsOf(before, bot), EventsOf(log, bot), None);
    }
  }

  lemma EventsOfNext(log: seq<Event>, e: Event, bot: nat)
    ensures EventsOf(log + [e], bot) == EventsOf(log, bot) + if e.bot == bot then [e] else []
  {
    assert (log + [e])[..|log|] == log;
  }

  lemma {:induction false} EventsOfPrefix(log: seq<Event>, k: nat, bot: nat)
    requires k <= |log|
    ensures EventsOf(log[..k], bot) <= EventsOf(log, bot)
  {
    if k < |log| {
      assert log[..|log| - 1][..k] == log[..k];
      EventsOfPrefix(log[..|log| - 1], k, bot);
    } else {
      assert log[..k] == log;
    }
  }

  /** What a bot has got at any time are its events of some prefix of the log. */
  lemma {:induction false} PrefixOfEvents(log: seq<Event>, own: seq<Event>, bot: nat) returns (k: nat)
    requires own <= EventsOf(log, bot)
    ensures k <= |log| && own == EventsOf(log[..k], bot)
  {
    k := |log|;
    if own == EventsOf(log, bot) {
      assert log[..k] == log;
    } else {
      var before := log[..|log| - 1];
      assert own == EventsOf(log, bot)[..|own|];
      k := PrefixOfEvents(before, own, bot);
      assert before[..k] == log[..k];
    }
  }

  /** So a bot's checks hold however many of its events have arrived. */
  lemma BotPasses(run: seq<Step>, own: seq<Event>, bot: nat)
    requires ValidRun(run) && own <= EventsOf(After(run).log, bot)
    ensures NotNegative(Counters(own, None))
  {
    hide ValidRun, After, Counters;
    var log := After(run).log;
    var k := PrefixOfEvents(log, own, bot);
    CountersOfBot(log[..k], bot);
    EveryCheckHolds(run, k, Some(bot));
  }

  // ---------- The actor of all bots ----------

  predicate NotNegative(w: Work) { w.requests >= 0 && w.files >= 0 && w.bytes >= 0 }

  /** Events of many bots, those of each bot being the first ones it was told. */
  ghost predicate Arrived(order: seq<Event>, log: seq<Event>) {
    forall bot :: EventsOf(order, bot) <= EventsOf(log, bot)
  }

  function CountersIn(log: seq<Event>, bots: set<nat>): Work {
    if log == [] then NO_WORK
    else
      var before, e := CountersIn(log[..|log| - 1], bots), log[|log| - 1];
      if e.bot in bots then Plus(before, Change(e)) else before
  }

  function Bots(log: seq<Event>): set<nat> {
    set e | e in log :: e.bot
  }

  lemma {:induction false} CountersOfAll(log: seq<Event>, bots: set<nat>)
    requires Bots(log) <= bots
    ensures Counters(log, None) == CountersIn(log, bots)
  {
    if log != [] {
      var before := log[..|log| - 1];
      assert forall e | e in before :: e in log;
      assert log[|log| - 1] in log;
      CountersOfAll(before, bots);
    }
  }

  lemma {:induction false} CountersSplit(log: seq<Event>, bots: set<nat>, bot: nat)
    requires bot in bots
    ensures CountersIn(log, bots) == Plus(Counters(log, Some(bot)), CountersIn(log, bots - {bot}))
  {
    hide Counters, CountersIn, Plus, Change;
    if log == [] {
      NoEvents(log, bots, bot);
      NoEvents(log, bots - {bot}, bot);
      PlusNothing(NO_WORK);
    } else {
      var before, e := log[..|log| - 1], log[|log| - 1];
      CountersSplit(before, bots, bot);
      LogGrows(before, log, Some(bot));
      CountersInNext(log, bots);
      CountersInNext(log, bots - {bot});
      PlusMoves(Counters(before, Some(bot)), CountersIn(before, bots - {bot}), Change(e));
    }
  }

  lemma NoEvents(log: seq<Event>, bots: set<nat>, bot: nat)
    requires log == []
    ensures CountersIn(log, bots) == NO_WORK == Counters(log, Some(bot))
  {
  }

  lemma CountersInNext(log: seq<Event>, bots: set<nat>)
    requires log != []
    ensures var before, e := CountersIn(log[..|log| - 1], bots), log[|log| - 1];
      CountersIn(log, bots) == if e.bot in bots then Plus(before, Change(e)) else before
  {
  }

  lemma PlusMoves(a: Work, b: Work, c: Work)
    ensures Plus(Plus(a, b), c) == Plus(Plus(a, c), b) == Plus(a, Plus(b, c))
  {
  }

  lemma {:induction false} NoBots(log: seq<Event>)
    ensures CountersIn(log, {}) == NO_WORK
  {
    if log != [] {
      NoBots(log[..|log| - 1]);
    }
  }

  lemma {:induction false} SumNotNegative(run: seq<Step>, order: seq<Event>, bots: set<nat>)
    requires ValidRun(run) && Arrived(order, After(run).log)
    ensures NotNegative(CountersIn(order, bots))
    decreases |bots|
  {
    hide ValidRun, After, Counters, CountersIn;
    if bots == {} {
      NoBots(order);
    } else {
      var bot := Pick(bots);
      CountersSplit(order, bots, bot);
      CountersOfBot(order, bot);
      BotPasses(run, EventsOf(order, bot), bot);
      SumNotNegative(run, order, bots - {bot});
    }
  }

  lemma {:induction false} SameSums(order: seq<Event>, log: seq<Event>, bots: set<nat>)
    requires forall bot :: EventsOf(order, bot) == EventsOf(log, bot)
    ensures CountersIn(order, bots) == CountersIn(log, bots)
    decreases |bots|
  {
    hide Counters, CountersIn;
    if bots == {} {
      NoBots(order);
      NoBots(log);
    } else {
      var bot := Pick(bots);
      CountersSplit(order, bots, bot);
      CountersSplit(log, bots, bot);
      CountersOfBot(order, bot);
      CountersOfBot(log, bot);
      SameSums(order, log, bots - {bot});
    }
  }

  /** In whatever order the events of different bots come, their counters end up the
      same. */
  lemma OrderIsIrrelevant(order: seq<Event>, log: seq<Event>)
    requires forall bot :: EventsOf(order, bot) == EventsOf(log, bot)
    ensures Counters(order, None) == Counters(log, None)
  {
    hide Counters, CountersIn;
    var bots := Bots(order) + Bots(log);
    CountersOfAll(order, bots);
    CountersOfAll(log, bots);
    SameSums(order, log, bots);
  }

  /** No check fails when the next event reaches the actor of its bot or the actor of
      all bots, in whatever order the events of different bots come. */
  lemma NextEventPasses(run: seq<Step>, order: seq<Event>, k: nat)
    requires ValidRun(run) && Arrived(order, After(run).log) && k < |order|
    ensures var e := order[k];
      && NotNegative(Counters(EventsOf(order[..k], e.bot) + [e], None))
      && NotNegative(Counters(order[..k] + [e], None))
  {
    hide ValidRun, After, Counters, CountersIn;
    var now, e := order[..k + 1], order[k];
    assert now == order[..k] + [e];
    forall bot
      ensures EventsOf(now, bot) <= EventsOf(After(run).log, bot)
    {
      EventsOfPrefix(order, k + 1, bot);
    }
    EventsOfNext(order[..k], e, e.bot);
    BotPasses(run, EventsOf(now, e.bot), e.bot);
    SumNotNegative(run, now, Bots(now));
    CountersOfAll(now, Bots(now));
  }

  /** When every query is released, what is still counted are the queries that were
      dropped without an answer by holders without a promise. */
  lemma OnlyForgottenStayCounted(run: seq<Step>)
    requires ValidRun(run) && forall id | id in After(run).queries :: After(run).queries[id].released
    ensures var w := After(run);
      && (forall id :: id in Outstanding(w.queries, None) <==>
            && id in w.queries && w.queries[id].promise.None?
            && w.queries[id].statActor.Some? && w.queries[id].phase == Waiting)
      && Counters(w.log, None).requests == |Outstanding(w.queries, None)|
  {
    RunConserves(run);
  }

  /** The answers that a run gives to a query. */
  function AnswersOf(run: seq<Step>, id: nat): seq<Action> {
    if run == [] then []
    else
      var last := run[|run| - 1];
      AnswersOf(run[..|run| - 1], id) + if last.id == id && last.action.Answer? then [last.action] else []
  }

  /** The query shows the one answer that it got. Without one it still waits, or it has
      been given back to whoever asked, with a request to retry after 5 seconds. */
  ghost predicate ShowsAnswer(w: World, id: nat, answers: seq<Action>) {
    if id !in w.queries then answers == []
    else
      var r := w.queries[id];
      if answers == [] then
        if r.released && r.promise.Some? then r.phase == Error && r.code == 429 && r.retryAfter == 5
        else r.phase == Waiting && r.retryAfter == 0
      else
        && |answers| == 1 && answers[0].Answer?
        && r.phase == (if answers[0].ok then Ok else Error)
        && r.code == answers[0].code && r.retryAfter == answers[0].retryAfter
  }

  lemma StepShowsAnswer(w: World, id: nat, a: Action, q: nat, answers: seq<Action>)
    requires Enabled(w, id, a) && ShowsAnswer(w, q, answers)
    ensures ShowsAnswer(Apply(w, id, a), q, answers + if id == q && a.Answer? then [a] else [])
  {
    hide RequestEvents, ResponseEvents;
  }

  lemma {:induction false} RunShowsAnswer(run: seq<Step>, id: nat)
    requires ValidRun(run)
    ensures ShowsAnswer(After(run), id, AnswersOf(run, id))
  {
    if run != [] {
      hide ShowsAnswer, Apply, Enabled;
      var before, last := run[..|run| - 1], run[|run| - 1];
      RunShowsAnswer(before, id);
      StepShowsAnswer(After(before), last.id, last.action, id, AnswersOf(before, id));
    }
  }

  /** A promise is fulfilled with the one answer that the run gives to its query, or, if
      there is none, with code 429 and a request to retry after 5 seconds. */
  lemma PromiseGetsTheAnswer(run: seq<Step>, i: nat)
    requires ValidRun(run) && i < |After(run).delivered|
    ensures var d := After(run).delivered[i]; var answers := AnswersOf(run, d.query);
      if answers == [] then d.code == 429 && d.retryAfter == 5
      else && |answers| == 1 && answers[0].Answer?
           && d.code == answers[0].code && d.retryAfter == answers[0].retryAfter
  {
    RunConserves(run);
    RunShowsAnswer(run, After(run).delivered[i].query);
    hide ValidRun, After, Conserved;
  }

  /** Every promise whose query was released is fulfilled once, and with an answer;
      the others are not fulfilled yet. */
  lemma PromiseFulfilledOnce(run: seq<Step>, id: nat, p: nat)
    requires ValidRun(run) && id in After(run).queries && After(run).queries[id].promise == Some(p)
    ensures var w := After(run);
      && (w.queries[id].released <==> exists i | 0 <= i < |w.delivered| :: w.delivered[i].promise == p)
      && (forall i, j | 0 <= i < j < |w.delivered| :: w.delivered[i].promise != w.delivered[j].promise)
      && (forall i | 0 <= i < |w.delivered| && w.delivered[i].promise == p ::
            && w.delivered[i].query == id && w.queries[id].phase != Waiting
            && w.delivered[i].code == w.queries[id].code)
  {
    RunConserves(run);
    hide ValidRun, After, Conserved;
    var w := After(run);
    if w.queries[id].released {
      var d := DeliveryOf(w.queries[id], id)[0];
      var i :| 0 <= i < |w.delivered| && w.delivered[i] == d;
      assert w.delivered[i].promise == p;
    }
  }
}
