/** What the delivery scheduler guarantees over whole runs: any number of its
    own steps interleaved with any steps of its environment. */
module SchedulerRuns {
  import opened UnixClock
  import opened DeliveryBook
  import opened Scheduler

  // ---------- Runs ----------

  function Front<T>(s: seq<T>): seq<T>
    requires s != []
  {
    s[..|s| - 1]
  }

  function Last<T>(s: seq<T>): T
    requires s != []
  {
    s[|s| - 1]
  }

  ghost predicate ValidRun(s: State, tr: seq<Step>)
    decreases |tr|, 0
  {
    tr == [] || (ValidRun(s, Front(tr)) && Enabled(After(s, Front(tr)), Last(tr)))
  }

  ghost function After(s: State, tr: seq<Step>): State
    requires ValidRun(s, tr)
    decreases |tr|, 1
  {
    if tr == [] then s else Apply(After(s, Front(tr)), Last(tr))
  }

  /** A run of a freshly started actor. */
  ghost predicate FromStart(s: State, tr: seq<Step>) {
    Initial(s) && ValidRun(s, tr)
  }

  lemma {:induction false} RunKeepsInv(s: State, tr: seq<Step>)
    requires Inv(s) && ValidRun(s, tr)
    ensures Inv(After(s, tr))
    decreases |tr|
  {
    hide Inv, Apply, Enabled;
    if tr != [] {
      RunKeepsInv(s, Front(tr));
      StepKeepsInv(After(s, Front(tr)), Last(tr));
    }
  }

  /** The invariant holds before and after the last step of a run. */
  lemma ReachedInv(s: State, tr: seq<Step>)
    requires FromStart(s, tr)
    ensures Inv(s) && Inv(After(s, tr)) && (tr != [] ==> FromStart(s, Front(tr)) && Inv(After(s, Front(tr))))
  {
    InitialInv(s);
    hide Inv, Apply, Enabled, Initial;
    RunKeepsInv(s, tr);
    if tr != [] {
      RunKeepsInv(s, Front(tr));
    }
  }

  lemma RunExtends(s: State, tr: seq<Step>, e: Step)
    requires ValidRun(s, tr) && Enabled(After(s, tr), e)
    ensures ValidRun(s, tr + [e]) && After(s, tr + [e]) == Apply(After(s, tr), e)
  {
    assert Front(tr + [e]) == tr;
  }

  lemma {:induction false} PrefixValid(s: State, tr: seq<Step>, i: nat)
    requires ValidRun(s, tr) && i <= |tr|
    ensures ValidRun(s, tr[..i])
    ensures i < |tr| ==> Enabled(After(s, tr[..i]), tr[i])
    decreases |tr|
  {
    if i == |tr| {
      assert tr[..i] == tr;
    } else {
      assert Front(tr)[..i] == tr[..i];
      PrefixValid(s, Front(tr), i);
    }
  }

  // ---------- Order and completeness ----------

  function LoadedIn(tr: seq<Step>, q: int): seq<int> {
    if tr == [] then []
    else LoadedIn(Front(tr), q) + if Last(tr).Loaded? && Last(tr).queueId == q then [Last(tr).id] else []
  }

  predicate Finishes(e: Step) { e.Succeeded? || e.Expired? }

  function FinishedIn(tr: seq<Step>, q: int): seq<int> {
    if tr == [] then []
    else FinishedIn(Front(tr), q) + if Finishes(Last(tr)) && Last(tr).queueId == q then [Last(tr).id] else []
  }

  lemma LoadAppends(s: State, id: int, p: int, q: int)
    requires Inv(s) && Enabled(s, Loaded(id, p))
    ensures Waiting(Load(s, id).book, q) == Waiting(s.book, q) + if p == q then [id] else []
    ensures s.highest < id
  {
    LoadIsNew(s, id, p);
  }

  lemma DropTakesFront(b: Book, id: int, q: int)
    requires IsHead(b, id)
    ensures Waiting(b, q) == (if q == b.updates[id].queueId then [id] else []) + Waiting(Drop(b, id), q)
  {
  }

  lemma FinishTakesFront(s: State, conn: int, id: int, keep: bool, q: int)
    requires Inv(s) && Carried(s, conn, id)
    ensures IsHead(s.book, id)
    ensures Waiting(s.book, q) ==
            (if q == s.book.updates[id].queueId then [id] else []) + Waiting(Finish(s, conn, id, keep).book, q)
  {
    hide Inv, IsHead, Drop;
    CarriedIsHead(s, conn, id);
    DropTakesFront(s.book, id, q);
  }

  lemma StepKeepsOrder(s: State, e: Step, q: int)
    requires Inv(s) && Enabled(s, e)
    ensures var w, w' := Waiting(s.book, q), Waiting(Apply(s, e).book, q);
      if e.Loaded? && e.queueId == q then w' == w + [e.id] && s.highest < e.id
      else if Finishes(e) && e.queueId == q then w == [e.id] + w'
      else w' == w
    ensures s.highest <= Apply(s, e).highest
    ensures e.Loaded? ==> Apply(s, e).highest == e.id
  {
    hide Inv;
    match e
    case Loaded(id, p) => LoadAppends(s, id, p, q);
    case Succeeded(conn, id, _, keep) => FinishTakesFront(s, conn, id, keep, q);
    case Expired(conn, id, _, _, keep) => FinishTakesFront(s, conn, id, keep, q);
    case _ =>
  }

  lemma AppendIncreasing(ids: seq<int>, id: int)
    requires Increasing(ids) && forall k | k in ids :: k < id
    ensures Increasing(ids + [id])
  {
    assert forall i | 0 <= i < |ids| :: ids[i] in ids;
  }

  lemma {:induction false} LoadedIncreasing(s: State, tr: seq<Step>, q: int)
    requires FromStart(s, tr)
    ensures Increasing(LoadedIn(tr, q))
    ensures forall id | id in LoadedIn(tr, q) :: id <= After(s, tr).highest
    decreases |tr|
  {
    hide Inv, Apply, Enabled;
    ReachedInv(s, tr);
    if tr != [] {
      LoadedIncreasing(s, Front(tr), q);
      StepKeepsOrder(After(s, Front(tr)), Last(tr), q);
      if Last(tr).Loaded? && Last(tr).queueId == q {
        AppendIncreasing(LoadedIn(Front(tr), q), Last(tr).id);
      }
    }
  }

  /** The events finished for a queue, followed by those still waiting in it,
      are the events loaded for it, in load order and never twice. */
  lemma {:induction false} QueueOrder(s: State, tr: seq<Step>, q: int)
    requires FromStart(s, tr)
    ensures LoadedIn(tr, q) == FinishedIn(tr, q) + Waiting(After(s, tr).book, q)
    ensures Increasing(LoadedIn(tr, q))
    decreases |tr|
  {
    hide Inv, Apply, Enabled, Increasing;
    ReachedInv(s, tr);
    LoadedIncreasing(s, tr, q);
    if tr != [] {
      QueueOrder(s, Front(tr), q);
      StepKeepsOrder(After(s, Front(tr)), Last(tr), q);
      var f, w := FinishedIn(Front(tr), q), Waiting(After(s, Front(tr)).book, q);
      if Finishes(Last(tr)) && Last(tr).queueId == q {
        assert f + w == f + [Last(tr).id] + Waiting(After(s, tr).book, q);
      }
    }
  }

  /** An event is sent only when everything loaded before it for its queue has
      been finished. */
  lemma SentInOrder(s: State, tr: seq<Step>, i: nat)
    requires FromStart(s, tr) && i < |tr| && tr[i].Sent?
    ensures ValidRun(s, tr[..i])
    ensures tr[i].id in After(s, tr[..i]).book.updates
    ensures var q := After(s, tr[..i]).book.updates[tr[i].id].queueId;
      FinishedIn(tr[..i], q) + [tr[i].id] <= LoadedIn(tr[..i], q)
  {
    PrefixValid(s, tr, i);
    var b := After(s, tr[..i]).book;
    var q := b.updates[tr[i].id].queueId;
    QueueOrder(s, tr[..i], q);
    assert Waiting(b, q)[0] == tr[i].id;
  }

  function LoadedIds(tr: seq<Step>): seq<int> {
    if tr == [] then []
    else LoadedIds(Front(tr)) + if Last(tr).Loaded? then [Last(tr).id] else []
  }

  function FinishedIds(tr: seq<Step>): set<int> {
    if tr == [] then {}
    else FinishedIds(Front(tr)) + if Finishes(Last(tr)) then {Last(tr).id} else {}
  }

  lemma FinishMovesUpdates(s: State, conn: int, id: int, keep: bool)
    requires Inv(s) && Carried(s, conn, id)
    ensures IsHead(s.book, id)
    ensures var s' := Finish(s, conn, id, keep);
      && s'.book.updates.Keys == s.book.updates.Keys - {id} && s'.log == s.log - {id} && s'.highest == s.highest
  {
    hide Inv;
    CarriedIsHead(s, conn, id);
  }

  lemma LoaderFacts(s: State)
    requires Inv(s)
    ensures s.highest < s.tail
    ensures forall id | Live(s, id) && (id < s.offset || id <= s.highest) :: id in s.book.updates
  {
  }

  /** How a step changes which updates are pending, and what leaves the log. */
  ghost predicate UpdatesMove(s: State, e: Step, s': State) {
    && s'.book.updates.Keys == (if e.Loaded? then s.book.updates.Keys + {e.id}
                                else if Finishes(e) then s.book.updates.Keys - {e.id}
                                else s.book.updates.Keys)
    && (Finishes(e) ==> e.id in s.book.updates && e.id !in s'.log)
    && (e.Loaded? ==> s.highest < e.id == s'.highest)
    && (!e.Loaded? ==> s'.highest == s.highest)
    && s.highest < s.tail
    && (e.Drained? ==> forall id | Live(s', id) :: id in s'.book.updates)
    && (forall id | id in s'.log :: id in s.log || s.tail <= id)
  }

  lemma OthersMoveNothing(s: State, e: Step)
    requires Inv(s) && Enabled(s, e) && !e.Loaded? && !Finishes(e)
    ensures UpdatesMove(s, e, Apply(s, e))
  {
    hide Inv, Drop, NextToLoad, TooLate, IsFirst, Load, Finish;
    LoaderFacts(s);
  }

  lemma StepMovesUpdates(s: State, e: Step)
    requires Inv(s) && Enabled(s, e)
    ensures UpdatesMove(s, e, Apply(s, e))
  {
    hide Inv, Drop, NextToLoad, TooLate, IsFirst;
    if e.Loaded? {
      LoaderFacts(s);
      LoadAppends(s, e.id, e.queueId, e.queueId);
    } else if Finishes(e) {
      LoaderFacts(s);
      FinishMovesUpdates(s, e.conn, e.id, e.keep);
    } else {
      hide UpdatesMove;
      OthersMoveNothing(s, e);
    }
  }

  lemma {:induction false} LoadedIdsIncreasing(s: State, tr: seq<Step>)
    requires FromStart(s, tr)
    ensures Increasing(LoadedIds(tr))
    ensures forall id | id in LoadedIds(tr) :: id <= After(s, tr).highest
    decreases |tr|
  {
    hide Inv, Apply, Enabled;
    ReachedInv(s, tr);
    if tr != [] {
      LoadedIdsIncreasing(s, Front(tr));
      StepMovesUpdates(After(s, Front(tr)), Last(tr));
      if Last(tr).Loaded? {
        AppendIncreasing(LoadedIds(Front(tr)), Last(tr).id);
      }
    }
  }

  /** Events are loaded once each and in increasing order, even when the offset
      goes back to the head of the log. What was loaded is pending or finished,
      not both, and what is finished is no longer in the log. */
  lemma {:induction false} LoadedOnce(s: State, tr: seq<Step>)
    requires FromStart(s, tr)
    ensures Increasing(LoadedIds(tr))
    ensures forall id :: id in LoadedIds(tr) <==> (id in After(s, tr).book.updates || id in FinishedIds(tr))
    ensures forall id | id in FinishedIds(tr) :: id !in After(s, tr).book.updates && id !in After(s, tr).log
    decreases |tr|
  {
    hide Inv, Apply, Enabled, Increasing;
    ReachedInv(s, tr);
    LoadedIdsIncreasing(s, tr);
    if tr != [] {
      LoadedOnce(s, Front(tr));
      LoadedIdsIncreasing(s, Front(tr));
      StepMovesUpdates(After(s, Front(tr)), Last(tr));
      assert forall id | id in FinishedIds(Front(tr)) :: id in LoadedIds(Front(tr));
    }
  }

  /** The offset went back to the head of the log after the last load. */
  predicate WentBack(tr: seq<Step>) {
    tr != [] && (Last(tr).Rewound? || (!Last(tr).Loaded? && WentBack(Front(tr))))
  }

  /** The offset comes right after the highest event ever loaded, or is unset when
      there is none. */
  predicate AtHighest(s: State) {
    s.offset == s.highest + 1 || s.offset == s.highest == NO_EVENT
  }

  lemma {:induction false} OffsetAfterLoads(s: State, tr: seq<Step>)
    requires FromStart(s, tr) && !WentBack(tr)
    ensures AtHighest(After(s, tr))
    decreases |tr|
  {
    hide Enabled, Apply;
    if tr != [] {
      OffsetMoves(After(s, Front(tr)), Last(tr));
      if !Last(tr).Loaded? {
        OffsetAfterLoads(s, Front(tr));
      }
    }
  }

  lemma OffsetMoves(s: State, e: Step)
    requires Enabled(s, e)
    ensures var s' := Apply(s, e);
      && s'.offset == (if e.Loaded? then e.id + 1 else if e.Rewound? then e.head else s.offset)
      && s'.highest == (if e.Loaded? then e.id else s.highest)
  {
    hide Drop, Delay, Add, Open, Send, Park, Close, Release, TooLate, NextToLoad, Due, Carried, QueueOf;
  }

  /** No live event of the log is skipped: up to the last event ever loaded,
      each one is pending in the actor. */
  lemma NothingSkipped(s: State, tr: seq<Step>, id: int)
    requires FromStart(s, tr)
    requires LoadedIds(tr) != [] && id <= Last(LoadedIds(tr)) && Live(After(s, tr), id)
    ensures id in After(s, tr).book.updates && id in LoadedIds(tr)
  {
    hide Apply, Enabled;
    ReachedInv(s, tr);
    LoaderFacts(After(s, tr));
    hide Inv;
    LoadedOnce(s, tr);
    LoadedIdsIncreasing(s, tr);
    assert Last(LoadedIds(tr)) in LoadedIds(tr);
  }

  /** The events appended since the actor last found the log exhausted. */
  function PushedSince(tr: seq<Step>): set<int> {
    if tr == [] || Last(tr).Drained? then {}
    else PushedSince(Front(tr)) + if Last(tr).Pushed? then {Last(tr).id} else {}
  }

  /** While the actor believes the log exhausted, every live event is pending
      in it or was appended after it looked. */
  lemma {:induction false} DrainedMeansLoaded(s: State, tr: seq<Step>, id: int)
    requires FromStart(s, tr)
    requires After(s, tr).drained && Live(After(s, tr), id)
    ensures id in After(s, tr).book.updates || id in PushedSince(tr)
    decreases |tr|
  {
    hide Inv;
    ReachedInv(s, tr);
    assert tr != [];
    var before, e := After(s, Front(tr)), Last(tr);
    StepMovesUpdates(before, e);
    if !e.Drained? && !(e.Pushed? && e.id == id) {
      UnixTimeMonotone(before.unixDiff, before.now, After(s, tr).unixDiff, After(s, tr).now);
      assert Live(before, id);
      DrainedMeansLoaded(s, Front(tr), id);
    }
  }
}
