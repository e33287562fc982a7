/** A run in which a header cannot be built: two updates of two queues are loaded,
    a connection is opened, and the first queue is parked. */
module HeaderFailure {
  import opened RetryPolicy
  import opened DeliveryBook
  import opened Scheduler
  import opened SchedulerRuns
  import opened ActorSteps

  const NOW := 1

  function Fresh(queueId: int): Update {
    Update(9, 0, NOW, FRESH, queueId)
  }

  function At(offset: int, highest: int, b: Book): State {
    State(NOW, 0, map[1 := LogEvent(9, 11), 2 := LogEvent(9, 12)], 3, offset, false, UNIQUE_QUEUES, 2, highest, b)
  }

  function OneLoaded(): Book {
    Book(map[1 := Fresh(11)], map[11 := [1]], {Queue(NOW, 11)}, map[], {}, {})
  }

  function BothLoaded(): Book {
    Book(map[1 := Fresh(11), 2 := Fresh(12)], map[11 := [1], 12 := [2]], {Queue(NOW, 11), Queue(NOW, 12)},
         map[], {}, {})
  }

  lemma StartRewinds()
    ensures var s, e := At(0, 0, EMPTY), Rewound(1);
      Initial(s) && Enabled(s, e) && Apply(s, e) == At(1, 0, EMPTY)
  {
  }

  lemma FirstAdds()
    ensures Add(EMPTY, 1, Fresh(11)) == OneLoaded()
  {
    var b := Add(EMPTY, 1, Fresh(11));
    assert Waiting(EMPTY, 11) + [1] == [1];
    assert b.updates == OneLoaded().updates && b.queueUpdates == OneLoaded().queueUpdates;
    assert b.queues == OneLoaded().queues;
  }

  lemma SecondAdds()
    ensures Add(OneLoaded(), 2, Fresh(12)) == BothLoaded()
  {
    var b := Add(OneLoaded(), 2, Fresh(12));
    assert Waiting(OneLoaded(), 12) + [2] == [2];
    assert b.updates == BothLoaded().updates && b.queueUpdates == BothLoaded().queueUpdates;
    assert b.queues == BothLoaded().queues;
  }

  lemma FirstLoads()
    ensures var s, e := At(1, 0, EMPTY), Loaded(1, 11);
      Enabled(s, e) && Apply(s, e) == At(2, 1, OneLoaded())
  {
    FirstAdds();
    hide Add;
  }

  lemma SecondLoads()
    ensures var s, e := At(2, 1, OneLoaded()), Loaded(2, 12);
      Enabled(s, e) && Apply(s, e) == At(3, 2, BothLoaded())
  {
    SecondAdds();
    hide Add;
    assert OneLoaded().queueUpdates.Keys == {11};
    assert |OneLoaded().queueUpdates| == |OneLoaded().queueUpdates.Keys|;
  }

  lemma ConnectionOpens()
    ensures var s, e := At(3, 2, BothLoaded()), Opened(7, 0);
      Enabled(s, e) && Apply(s, e) == At(3, 2, Open(BothLoaded(), 7, 0))
  {
  }

  /** Both queues are due, and the first entry of the index is that of queue 11. */
  lemma FirstParks()
    ensures var s, e := At(3, 2, Open(BothLoaded(), 7, 0)), Parked(1);
      && Enabled(s, e)
      && Apply(s, e).book.ready == {7} && Apply(s, e).book.parked == {11} && Apply(s, e).now == NOW
      && Due(Apply(s, e), 2)
      && forall timer | timer == 0 || timer > NOW :: !Served(Apply(s, e).book, timer)
  {
    var s := At(3, 2, Open(BothLoaded(), 7, 0));
    assert Enabled(s, Parked(1));
    forall timer | timer == 0 || timer > NOW
      ensures !Served(Apply(s, Parked(1)).book, timer)
    {
      ServedAfterParking(s, 1, timer);
      assert Queue(NOW, 12) in s.book.queues && Queue(NOW, 12) != Key(s.book.updates, 1);
    }
    assert Queue(NOW, 12) in Park(s.book, 1, NOW).queues;
  }

  /** After the run the second queue is due and a connection is idle; without a
      timer, or with one in the future, nothing will send it. */
  lemma HeaderFailureLosesWakeup() returns (s: State, tr: seq<Step>)
    ensures FromStart(s, tr) && tr != [] && Last(tr) == Parked(1)
    ensures var s' := After(s, tr);
      && Due(s', 2) && s'.book.ready != {} && s'.book.parked == {11}
      && forall timer | timer == 0 || timer > s'.now :: !Served(s'.book, timer)
  {
    s := At(0, 0, EMPTY);
    StartRewinds();
    tr := [];
    assert FromStart(s, tr) && After(s, tr) == s;
    hide FromStart, After, ValidRun, Enabled, Apply, Served, Due, At, BothLoaded, OneLoaded;
    tr := Extend(s, tr, Rewound(1), At(1, 0, EMPTY));
    FirstLoads();
    tr := Extend(s, tr, Loaded(1, 11), At(2, 1, OneLoaded()));
    SecondLoads();
    tr := Extend(s, tr, Loaded(2, 12), At(3, 2, BothLoaded()));
    ConnectionOpens();
    tr := Extend(s, tr, Opened(7, 0), At(3, 2, Open(BothLoaded(), 7, 0)));
    FirstParks();
    var last := At(3, 2, Open(BothLoaded(), 7, 0));
    tr := Extend(s, tr, Parked(1), Apply(last, Parked(1)));
  }

  lemma Extend(s: State, tr: seq<Step>, e: Step, s': State) returns (tr': seq<Step>)
    requires FromStart(s, tr) && Enabled(After(s, tr), e) && Apply(After(s, tr), e) == s'
    ensures tr' == tr + [e] && FromStart(s, tr') && After(s, tr') == s'
  {
    hide Enabled, Apply;
    RunExtends(s, tr, e);
    tr' := tr + [e];
  }
}
