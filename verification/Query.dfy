/** Queries as objects, with the operations that change them, and the statistics
    actor that their events are sent to. */
module Queries {
  import opened Options
  import opened QueryLifecycle

  const HTTP_OK := 200

  class Query {
    const container: seq<nat>
    const files: seq<nat>

    /** Who waits for the query; it is part of the pointer that owns the query. */
    const promise: Option<nat>
    const id: nat
    var statActor: Option<nat>
    var state: Phase
    var httpStatusCode: int
    var retryAfter: int
    ghost var released: bool

    ghost function Current(): Rec
      reads this
    {
      Rec(container, files, promise, statActor, state, httpStatusCode, retryAfter, released)
    }

    constructor (id: nat, container: seq<nat>, files: seq<nat>, promise: Option<nat>)
      ensures this.id == id && Current() == NewRec(container, files, promise)
    {
      this.id, this.container, this.files, this.promise := id, container, files, promise;
      statActor, state, httpStatusCode, retryAfter, released := None, Waiting, 0, 0, false;
    }

    method SendRequestStat() returns (sent: seq<Event>)
      ensures sent == RequestEvents(Current())
    {
      match statActor
      case None =>
        sent := [];
      case Some(bot) =>
        sent := [Request(bot, Sum(container), |files|, Sum(files), Max(files))];
    }

    method SendResponseStat(answerSize: nat) returns (sent: seq<Event>)
      ensures sent == ResponseEvents(Current(), answerSize)
    {
      match statActor
      case None =>
        sent := [];
      case Some(bot) =>
        sent := [Response(bot, state == Ok, answerSize, |files|, Sum(files))];
    }

    /** The query is handed to a bot, which counts it. */
    method SetStatActor(bot: nat) returns (sent: seq<Event>)
      modifies `statActor
      ensures Current() == old(Current()).(statActor := Some(bot)) && sent == RequestEvents(Current())
      ensures sent == [Request(bot, Sum(container), |files|, Sum(files), Max(files))]
      ensures !released && state == Waiting && old(statActor).None? ==>
                IsAction(old(Current()), id, QueryLifecycle.SetStatActor(bot), Current(), sent, [])
    {
      statActor := Some(bot);
      sent := SendRequestStat();
    }

    method SetOk(size: nat) returns (sent: seq<Event>)
      requires state == Waiting
      modifies `state, `httpStatusCode
      ensures Current() == Answered(old(Current()), true, HTTP_OK, old(retryAfter))
      ensures state == Ok && httpStatusCode == 200
      ensures sent == if statActor.None? then []
                      else [Response(statActor.value, true, size, |files|, Sum(files))]
      ensures sent == ResponseEvents(Current(), size)
      ensures !released ==>
                IsAction(old(Current()), id, Answer(true, HTTP_OK, old(retryAfter), size), Current(), sent, [])
    {
      state := Ok;
      httpStatusCode := HTTP_OK;
      sent := SendResponseStat(size);
    }

    method SetError(code: int, size: nat) returns (sent: seq<Event>)
      requires state == Waiting
      modifies `state, `httpStatusCode
      ensures Current() == Answered(old(Current()), false, code, old(retryAfter))
      ensures state == Error && httpStatusCode == code
      ensures sent == if statActor.None? then []
                      else [Response(statActor.value, false, size, |files|, Sum(files))]
      ensures sent == ResponseEvents(Current(), size)
      ensures !released ==>
                IsAction(old(Current()), id, Answer(false, code, old(retryAfter), size), Current(), sent, [])
    {
      state := Error;
      httpStatusCode := code;
      sent := SendResponseStat(size);
    }

    method SetRetryAfterError(seconds: int, size: nat) returns (sent: seq<Event>)
      requires state == Waiting
      modifies `state, `httpStatusCode, `retryAfter
      ensures Current() == Answered(old(Current()), false, TOO_MANY_REQUESTS, seconds)
      ensures state == Error && httpStatusCode == 429 && retryAfter == seconds
      ensures sent == if statActor.None? then []
                      else [Response(statActor.value, false, size, |files|, Sum(files))]
      ensures sent == ResponseEvents(Current(), size)
      ensures !released ==>
                IsAction(old(Current()), id, Answer(false, TOO_MANY_REQUESTS, seconds, size), Current(), sent, [])
    {
      retryAfter := seconds;
      sent := SetError(TOO_MANY_REQUESTS, size);
    }

    /** The deleter of the owning pointer: whoever waits gets the query back, with a
        request to retry if nobody has answered it. */
    method Release(size: nat) returns (sent: seq<Event>, delivered: seq<Delivery>)
      requires !released
      modifies this
      ensures Current() == Released(old(Current()))
      ensures sent == if NeedsRetryAnswer(old(Current())) then ResponseEvents(Current(), size) else []
      ensures delivered == DeliveryOf(Current(), id)
      ensures old(state) == Waiting && promise.Some? ==>
                && state == Error && delivered == [Delivery(promise.value, id, 429, 5)]
                && sent == if statActor.None? then []
                           else [Response(statActor.value, false, size, |files|, Sum(files))]
      ensures old(state) != Waiting && promise.Some? ==>
                && state == old(state) && sent == []
                && delivered == [Delivery(promise.value, id, old(httpStatusCode), old(retryAfter))]
      ensures promise.None? ==> state == old(state) && sent == [] && delivered == []
      ensures released && statActor == old(statActor)
      ensures IsAction(old(Current()), id, QueryLifecycle.Release(size), Current(), sent, delivered)
    {
      sent, delivered := [], [];
      match promise {
        case None =>
        case Some(p) =>
          if state == Waiting {
            sent := SetRetryAfterError(RETRY_AFTER_DROP, size);
          }
          delivered := [Delivery(p, id, httpStatusCode, retryAfter)];
      }
      released := true;
    }

    /** Answers the query and gives it back at once. */
    method AnswerQuery(size: nat) returns (sent: seq<Event>, delivered: seq<Delivery>)
      requires state == Waiting && !released
      modifies this
      ensures Current() == Answered(old(Current()), true, HTTP_OK, old(retryAfter)).(released := true)
      ensures sent == ResponseEvents(Answered(old(Current()), true, HTTP_OK, old(retryAfter)), size)
      ensures state == Ok && httpStatusCode == 200
      ensures sent == if statActor.None? then []
                      else [Response(statActor.value, true, size, |files|, Sum(files))]
      ensures delivered == if promise.None? then [] else [Delivery(promise.value, id, HTTP_OK, old(retryAfter))]
      ensures var answered := Answered(old(Current()), true, HTTP_OK, old(retryAfter));
        && IsAction(old(Current()), id, Answer(true, HTTP_OK, old(retryAfter), size), answered, sent, [])
        && IsAction(answered, id, QueryLifecycle.Release(size), Current(), [], delivered)
    {
      var answered := SetOk(size);
      var dropped, d := Release(size);
      sent, delivered := answered + dropped, d;
    }

    method FailQuery(code: int, size: nat) returns (sent: seq<Event>, delivered: seq<Delivery>)
      requires state == Waiting && !released
      modifies this
      ensures Current() == Answered(old(Current()), false, code, old(retryAfter)).(released := true)
      ensures sent == ResponseEvents(Answered(old(Current()), false, code, old(retryAfter)), size)
      ensures state == Error && httpStatusCode == code
      ensures sent == if statActor.None? then []
                      else [Response(statActor.value, false, size, |files|, Sum(files))]
      ensures delivered == if promise.None? then [] else [Delivery(promise.value, id, code, old(retryAfter))]
      ensures var answered := Answered(old(Current()), false, code, old(retryAfter));
        && IsAction(old(Current()), id, Answer(false, code, old(retryAfter), size), answered, sent, [])
        && IsAction(answered, id, QueryLifecycle.Release(size), Current(), [], delivered)
    {
      var answered := SetError(code, size);
      var dropped, d := Release(size);
      sent, delivered := answered + dropped, d;
    }
  }

  // ---------- The statistics actor ----------

  /** Totals since the start. */
  datatype ServerBotStat = ServerBotStat(
    requestCount: nat,
    requestBytes: nat,
    requestFileCount: nat,
    requestFilesBytes: nat,
    requestFilesMaxBytes: nat,
    responseCount: nat,
    responseCountOk: nat,
    responseCountError: nat,
    responseBytes: nat)

  const NO_STAT := ServerBotStat(0, 0, 0, 0, 0, 0, 0, 0, 0)

  datatype Figure =
    | RequestCount
    | RequestBytes
    | RequestFileCount
    | RequestFilesBytes
    | ResponseCount
    | ResponseCountOk
    | ResponseBytes

  function Measure(e: Event, f: Figure): nat {
    match f
    case RequestCount => if e.Request? then 1 else 0
    case RequestBytes => if e.Request? then e.size else 0
    case RequestFileCount => if e.Request? then e.fileCount else 0
    case RequestFilesBytes => if e.Request? then e.filesSize else 0
    case ResponseCount => if e.Response? then 1 else 0
    case ResponseCountOk => if e.Response? && e.ok then 1 else 0
    case ResponseBytes => if e.Response? then e.size else 0
  }

  function Tally(log: seq<Event>, f: Figure): nat {
    if log == [] then 0 else Tally(log[..|log| - 1], f) + Measure(log[|log| - 1], f)
  }

  predicate IsMaximum(log: seq<Event>, max: nat) {
    && (forall i | 0 <= i < |log| && log[i].Request? :: log[i].filesMaxSize <= max)
    && (max == 0 || exists i | 0 <= i < |log| :: log[i].Request? && log[i].filesMaxSize == max)
  }

  /** The totals are the sums over the events behind them. */
  ghost predicate Summarizes(t: ServerBotStat, log: seq<Event>) {
    && t.requestCount == Tally(log, RequestCount)
    && t.requestBytes == Tally(log, RequestBytes)
    && t.requestFileCount == Tally(log, RequestFileCount)
    && t.requestFilesBytes == Tally(log, RequestFilesBytes)
    && t.responseCount == Tally(log, ResponseCount)
    && t.responseCountOk == Tally(log, ResponseCountOk)
    && t.responseCountOk + t.responseCountError == t.responseCount
    && t.responseBytes == Tally(log, ResponseBytes)
    && IsMaximum(log, t.requestFilesMaxBytes)
  }

  /** The requests that are counted and not yet answered are the difference of the
      totals since the start. */
  lemma {:induction false} ActiveIsDifference(log: seq<Event>)
    ensures Counters(log, None).requests == Tally(log, RequestCount) - Tally(log, ResponseCount)
    ensures |log| == Tally(log, RequestCount) + Tally(log, ResponseCount)
  {
    if log != [] {
      ActiveIsDifference(log[..|log| - 1]);
    }
  }

  /** What an event adds to the totals. */
  predicate Counts(t: ServerBotStat, e: Event, t': ServerBotStat) {
    match e
    case Request(_, size, fileCount, filesSize, filesMaxSize) =>
      && t'.requestCount == t.requestCount + 1 && t'.requestBytes == t.requestBytes + size
      && t'.requestFileCount == t.requestFileCount + fileCount
      && t'.requestFilesBytes == t.requestFilesBytes + filesSize
      && t'.requestFilesMaxBytes >= t.requestFilesMaxBytes && t'.requestFilesMaxBytes >= filesMaxSize
      && t'.requestFilesMaxBytes in {t.requestFilesMaxBytes, filesMaxSize}
      && t'.responseCount == t.responseCount && t'.responseBytes == t.responseBytes
      && t'.responseCountOk == t.responseCountOk && t'.responseCountError == t.responseCountError
    case Response(_, ok, size, _, _) =>
      && t'.requestCount == t.requestCount && t'.requestBytes == t.requestBytes
      && t'.requestFileCount == t.requestFileCount && t'.requestFilesBytes == t.requestFilesBytes
      && t'.requestFilesMaxBytes == t.requestFilesMaxBytes
      && t'.responseCount == t.responseCount + 1 && t'.responseBytes == t.responseBytes + size
      && t'.responseCountOk - t.responseCountOk == (if ok then 1 else 0)
      && t'.responseCountError - t.responseCountError == (if ok then 0 else 1)
  }

  class BotStatActor {
    const hasParent: bool
    var stat: ServerBotStat
    var activeRequestCount: int
    var activeFileUploadBytes: int
    var activeFileUploadCount: int
    var lastActivityTimestamp: int

    /** The events that have arrived. */
    ghost var log: seq<Event>

    ghost predicate Valid()
      reads this
    {
      && Work(activeRequestCount, activeFileUploadCount, activeFileUploadBytes) == Counters(log, None)
      && Summarizes(stat, log)
    }

    constructor (hasParent: bool)
      ensures Valid() && log == [] && this.hasParent == hasParent
    {
      this.hasParent := hasParent;
      stat := NO_STAT;
      activeRequestCount, activeFileUploadBytes, activeFileUploadCount := 0, 0, 0;
      lastActivityTimestamp := -1_000_000_000;
      log := [];
    }

    /** Counts an event and passes it on to the parent, which counts it as well. */
    method AddEvent(e: Event, now: int) returns (forwarded: seq<Event>)
      requires Valid() && Counters(log + [e], None).requests >= 0 && Counters(log + [e], None).bytes >= 0
      modifies this
      ensures Valid() && log == old(log) + [e]
      ensures forwarded == if hasParent then [e] else []
      ensures e.Request? ==>
                && activeRequestCount == old(activeRequestCount) + 1
                && activeFileUploadCount == old(activeFileUploadCount) + e.fileCount
                && activeFileUploadBytes == old(activeFileUploadBytes) + e.filesSize
      ensures e.Response? ==>
                && activeRequestCount == old(activeRequestCount) - 1
                && activeFileUploadCount == old(activeFileUploadCount) - e.fileCount
                && activeFileUploadBytes == old(activeFileUploadBytes) - e.filesSize
      ensures Counts(old(stat), e, stat)
      ensures lastActivityTimestamp == now
    {
      hide Counters, Summarizes, Counts, OnEvent;
      lastActivityTimestamp := now;
      LogGrows(log, log + [e], None);
      stat := OnEvent(stat, e);
      OnEventSummarizes(old(stat), log, e);
      OnEventCounts(old(stat), e);
      log := log + [e];
      match e {
        case Request(_, _, fileCount, filesSize, _) =>
          activeRequestCount := activeRequestCount + 1;
          activeFileUploadCount := activeFileUploadCount + fileCount;
          activeFileUploadBytes := activeFileUploadBytes + filesSize;
        case Response(_, _, _, fileCount, filesSize) =>
          activeRequestCount := activeRequestCount - 1;
          activeFileUploadCount := activeFileUploadCount - fileCount;
          activeFileUploadBytes := activeFileUploadBytes - filesSize;
          assert activeRequestCount >= 0;
          assert activeFileUploadBytes >= 0;
      }
      forwarded := if hasParent then [e] else [];
    }
  }

  /** A run's events reach the actor of a bot, and those of all bots reach their
      parent, in any order that keeps the order of each bot. No check fails on the
      way, the parent gets what the bot's actor passed on, and at the end the counters
      are the numbers of queries in progress. */
  method DeliverEvents(log: seq<Event>, order: seq<Event>, bot: nat, ghost run: seq<Step>)
    returns (own: BotStatActor, all: BotStatActor, forwarded: seq<Event>)
    requires ValidRun(run) && log == After(run).log
    requires forall b :: EventsOf(order, b) == EventsOf(log, b)
    ensures own.Valid() && own.log == EventsOf(log, bot) && all.Valid() && all.log == order
    ensures forwarded == EventsOf(order, bot)
    ensures own.activeRequestCount == |Outstanding(After(run).queries, Some(bot))|
    ensures all.activeRequestCount == |Outstanding(After(run).queries, None)|
  {
    own, forwarded := DeliverToBot(log, bot, run);
    all := DeliverToParent(log, order, run);
  }

  method DeliverToBot(log: seq<Event>, bot: nat, ghost run: seq<Step>)
    returns (own: BotStatActor, forwarded: seq<Event>)
    requires ValidRun(run) && log == After(run).log
    ensures fresh(own) && own.Valid() && own.log == forwarded == EventsOf(log, bot)
    ensures own.activeRequestCount == |Outstanding(After(run).queries, Some(bot))|
  {
    hide ValidRun, After, Counters, Summarizes;
    own := new BotStatActor(true);
    forwarded := [];
    var events := EventsOf(log, bot);
    for i := 0 to |events|
      invariant fresh(own) && own.hasParent && own.Valid() && own.log == forwarded == events[..i]
    {
      assert events[..i + 1] == events[..i] + [events[i]];
      BotPasses(run, events[..i + 1], bot);
      var sent := own.AddEvent(events[i], i);
      forwarded := forwarded + sent;
    }
    assert events[..|events|] == events;
    CountersOfBot(log, bot);
    CountersAreSums(run, Some(bot));
  }

  method DeliverToParent(log: seq<Event>, order: seq<Event>, ghost run: seq<Step>) returns (all: BotStatActor)
    requires ValidRun(run) && log == After(run).log
    requires forall b :: EventsOf(order, b) == EventsOf(log, b)
    ensures fresh(all) && all.Valid() && all.log == order
    ensures all.activeRequestCount == |Outstanding(After(run).queries, None)|
  {
    hide ValidRun, After, Counters, Summarizes;
    all := new BotStatActor(false);
    for i := 0 to |order|
      invariant fresh(all) && all.Valid() && all.log == order[..i]
    {
      assert order[..i + 1] == order[..i] + [order[i]];
      NextEventPasses(run, order, i);
      var none := all.AddEvent(order[i], i);
    }
    assert order[..|order|] == order;
    OrderIsIrrelevant(order, log);
    CountersAreSums(run, None);
  }

  function OnEvent(t: ServerBotStat, e: Event): ServerBotStat {
    match e
    case Request(_, size, fileCount, filesSize, filesMaxSize) =>
      t.(requestCount := t.requestCount + 1,
         requestBytes := t.requestBytes + size,
         requestFileCount := t.requestFileCount + fileCount,
         requestFilesBytes := t.requestFilesBytes + filesSize,
         requestFilesMaxBytes := if t.requestFilesMaxBytes < filesMaxSize then filesMaxSize else t.requestFilesMaxBytes)
    case Response(_, ok, size, _, _) =>
      t.(responseCount := t.responseCount + 1,
         responseCountOk := t.responseCountOk + (if ok then 1 else 0),
         responseCountError := t.responseCountError + (if ok then 0 else 1),
         responseBytes := t.responseBytes + size)
  }

  lemma OnEventCounts(t: ServerBotStat, e: Event)
    ensures Counts(t, e, OnEvent(t, e))
  {
  }

  lemma OnEventSummarizes(t: ServerBotStat, log: seq<Event>, e: Event)
    requires Summarizes(t, log)
    ensures Summarizes(OnEvent(t, e), log + [e])
  {
    assert (log + [e])[..|log|] == log;
    if e.Request? && t.requestFilesMaxBytes < e.filesMaxSize {
      assert (log + [e])[|log|].filesMaxSize == e.filesMaxSize;
    } else if t.requestFilesMaxBytes != 0 {
      var i :| 0 <= i < |log| && log[i].Request? && log[i].filesMaxSize == t.requestFilesMaxBytes;
      assert (log + [e])[i].filesMaxSize == t.requestFilesMaxBytes;
    }
  }
}
