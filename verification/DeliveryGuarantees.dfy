/** At-least-once delivery and the bound on retries, over whole runs. */
module DeliveryGuarantees {
  import opened UnixClock
  import opened RetryPolicy
  import opened DeliveryBook
  import opened Scheduler
  import opened SchedulerRuns

  // ---------- At least once ----------

  predicate PurgedIn(tr: seq<Step>, id: int) {
    exists e | e in tr :: e.Purged? && id in e.ids
  }

  /** The step opens, closes or uses the connection, or sends or answers the event. */
  predicate Concerns(e: Step, conn: int, id: int) {
    || ((e.Opened? || e.Closed?) && e.conn == conn)
    || ((e.Sent? || e.Retried? || Finishes(e)) && (e.conn == conn || e.id == id))
  }

  lemma StepCarries(s: State, e: Step, conn: int, id: int)
    requires Inv(s) && Enabled(s, e) && id != NO_EVENT
    requires Carries(Apply(s, e).book.connections, conn, id)
    ensures e == Sent(conn, id) || (Carries(s.book.connections, conn, id) && !Concerns(e, conn, id))
  {
    hide Inv;
    if e.Sent? && e != Sent(conn, id) {
      NotInFlight(s, e.id, conn);
    } else if e.Retried? {
      AnswerLands(s, Delay(s.book, e.id, e.failure, s.now), e.conn, e.id, e.keep);
    } else if Finishes(e) {
      AnswerLands(s, Drop(s.book, e.id), e.conn, e.id, e.keep);
    }
  }

  lemma NotInFlight(s: State, id: int, conn: int)
    requires Inv(s) && Due(s, id)
    ensures !Carries(s.book.connections, conn, id)
  {
    DueIsIndexed(s, id);
  }

  /** After an answer its connection carries nothing, and no other one carries the
      event. */
  lemma AnswerLands(s: State, b: Book, c: int, id: int, keep: bool)
    requires Inv(s) && Carried(s, c, id) && b.connections == s.book.connections
    ensures forall d, k | k != NO_EVENT && Carries(Release(b, c, keep).connections, d, k) ::
              d != c && k != id && Carries(s.book.connections, d, k)
  {
    hide LoaderInv, QueuesHoldUpdates, UpdatesQueued, IndexKeyed, CarriesHeads, AllPlaced;
    assert forall d | Carries(s.book.connections, d, id) :: d == c;
    assert forall d, k | d != c :: Carries(Release(b, c, keep).connections, d, k) <==> Carries(s.book.connections, d, k);
  }

  /** After an answer the connection is idle and may be used again, or is gone, as the
      step says; the other connections are as before. */
  lemma AnswerFreesConnection(s: State, e: Step)
    requires Inv(s) && Enabled(s, e) && (Finishes(e) || e.Retried?)
    ensures var b, b' := s.book, Apply(s, e).book;
      && e.conn in b.connections && e.conn !in b.ready
      && (e.keep ==> b'.connections == b.connections[e.conn := b.connections[e.conn].(eventId := NO_EVENT)]
                     && b'.ready == b.ready + {e.conn})
      && (!e.keep ==> b'.connections == b.connections - {e.conn} && b'.ready == b.ready)
  {
    CarriedAlone(s.book, e.conn, e.id);
    hide Inv, Drop, Delay, TooLate;
    BooksShareConnections(s, e);
  }

  lemma BooksShareConnections(s: State, e: Step)
    requires Enabled(s, e) && (Finishes(e) || e.Retried?)
    ensures var dealt := if e.Retried? then Delay(s.book, e.id, e.failure, s.now) else Drop(s.book, e.id);
      && dealt.connections == s.book.connections && dealt.ready == s.book.ready
      && Apply(s, e).book == Release(dealt, e.conn, e.keep)
  {
  }

  /** A head is sent when its time has come, and its connection is idle no more. */
  lemma SendUsesConnection(s: State, e: Step)
    requires Enabled(s, e) && e.Sent?
    ensures var b, b' := s.book, Apply(s, e).book;
      && b'.connections == b.connections[e.conn := b.connections[e.conn].(eventId := e.id)]
      && b'.ready == b.ready - {e.conn}
      && e.id in b.updates && b.updates[e.id].wakeupAt <= s.now
  {
  }

  /** What a connection carries was sent through it, and nothing has happened to the
      connection or to the event since. */
  lemma {:induction false} CarriedWasSent(s: State, tr: seq<Step>, conn: int, id: int) returns (i: nat)
    requires FromStart(s, tr)
    requires Carries(After(s, tr).book.connections, conn, id) && id != NO_EVENT
    ensures i < |tr| && tr[i] == Sent(conn, id)
    ensures forall m | i < m < |tr| :: !Concerns(tr[m], conn, id)
    decreases |tr|
  {
    hide Inv, Apply, Enabled, Concerns;
    ReachedInv(s, tr);
    StepCarries(After(s, Front(tr)), Last(tr), conn, id);
    if Last(tr) == Sent(conn, id) {
      i := |tr| - 1;
    } else {
      i := CarriedWasSent(s, Front(tr), conn, id);
    }
  }

  lemma StepKeepsLog(s: State, e: Step, id: int)
    requires Inv(s) && Enabled(s, e) && id in s.log && id !in Apply(s, e).log
    ensures (e.Purged? && id in e.ids) || (Finishes(e) && e.id == id && Carried(s, e.conn, id))
    ensures e.Expired? ==> TooLate(s, id, e.failure)
  {
    hide Inv, LogWellFormed;
  }

  /** An event that was in the log at some point of a run, and was not purged, has
      left it by the actor's hand only at a step `j` that answers its last send, `i`:
      nothing else happened to the event or to the connection in between, and the
      answer was a success, or a failure whose retry would come after the expiry. */
  lemma {:induction false} ForgottenOnlyWhenDone(s: State, tr: seq<Step>, k: nat, id: int) returns (i: nat, j: nat)
    requires FromStart(s, tr) && k <= |tr| && ValidRun(s, tr[..k])
    requires id in After(s, tr[..k]).log && id !in After(s, tr).log && !PurgedIn(tr, id)
    ensures i < j < |tr| && k <= j && tr[i].Sent? && tr[i].id == id && Finishes(tr[j]) && tr[j].id == id
    ensures tr[j].conn == tr[i].conn && forall m | i < m < j :: !Concerns(tr[m], tr[i].conn, id)
    ensures tr[j].Expired? ==> ValidRun(s, tr[..j]) && id in After(s, tr[..j]).book.updates
                               && TooLate(After(s, tr[..j]), id, tr[j].failure)
    decreases |tr|
  {
    hide Inv, Apply, Enabled, TooLate, Concerns;
    ReachedInv(s, tr);
    assert tr[..|tr|] == tr;
    var before, e := After(s, Front(tr)), Last(tr);
    if id in before.log {
      StepKeepsLog(before, e, id);
      assert e in tr;
      j := |tr| - 1;
      i := CarriedWasSent(s, Front(tr), e.conn, id);
    } else {
      assert forall x | x in Front(tr) :: x in tr;
      assert Front(tr)[..k] == tr[..k];
      i, j := ForgottenOnlyWhenDone(s, Front(tr), k, id);
      assert Front(tr)[..j] == tr[..j];
    }
  }

  /** A failure that is not too late puts the update back into the index, to be
      sent again after its delay, and leaves it in the log. */
  lemma FailureReturnsToIndex(s: State, conn: int, id: int, f: Failure, keep: bool)
    requires Inv(s) && Carried(s, conn, id) && Drawable(f) && !TooLate(s, id, f)
    ensures var e := Retried(conn, id, f, Unix(s), s.book.updates[id].expiresAt, keep);
      && Enabled(s, e)
      && var s' := Apply(s, e);
         && Indexed(s'.book, id)
         && s'.book.updates[id].wakeupAt
            == s.now + EffectiveDelay(s.book.updates[id].backoff, f) * NANOS
         && s'.book.updates[id].backoff == AfterFailure(s.book.updates[id].backoff, f)
         && s'.log == s.log && !InFlight(s'.book.connections, id)
  {
    hide Inv;
    CarriedIsHead(s, conn, id);
    AnswerLands(s, Delay(s.book, id, f, s.now), conn, id, keep);
  }

  // ---------- Finitely many retries ----------

  /** The failures after which the update was to be sent again. */
  function RetriesOf(tr: seq<Step>, id: int): seq<Step> {
    if tr == [] then []
    else RetriesOf(Front(tr), id) + if Last(tr).Retried? && Last(tr).id == id then [Last(tr)] else []
  }

  function FailuresOf(tr: seq<Step>, id: int): seq<Failure> {
    if tr == [] then []
    else FailuresOf(Front(tr), id) + if Last(tr).Retried? && Last(tr).id == id then [Last(tr).failure] else []
  }

  function SendsOf(tr: seq<Step>, id: int): nat {
    if tr == [] then 0
    else SendsOf(Front(tr), id) + if Last(tr).Sent? && Last(tr).id == id then 1 else 0
  }

  /** A step puts an update in flight by sending it and lands it by any answer. */
  lemma StepChangesFlight(s: State, e: Step, k: int)
    requires Inv(s) && Enabled(s, e) && k != NO_EVENT
    ensures InFlight(Apply(s, e).book.connections, k) <==>
            if e.Sent? && e.id == k then true
            else if (Finishes(e) || e.Retried?) && e.id == k then false
            else InFlight(s.book.connections, k)
  {
    hide LoaderInv, QueuesHoldUpdates, UpdatesQueued, IndexKeyed, CarriesHeads, AllPlaced;
    var cs, cs' := s.book.connections, Apply(s, e).book.connections;
    if e.Opened? || e.Closed? || e.Sent? {
      assert e.conn !in cs || Carries(cs, e.conn, NO_EVENT);
      assert forall d | d != e.conn :: Carries(cs', d, k) <==> Carries(cs, d, k);
      assert e.Sent? ==> Carries(cs', e.conn, e.id);
    } else if Finishes(e) || e.Retried? {
      ReleaseCarries(s.book, e.conn, e.id, e.keep);
      assert cs' == Release(s.book, e.conn, e.keep).connections;
    }
  }

  /** How a step changes what the retry policy knows about an update that is pending
      after it. */
  ghost predicate BackoffMoves(s: State, e: Step, s': State, id: int)
    requires id in s'.book.updates
  {
    var u' := s'.book.updates[id];
    if e.Loaded? && e.id == id then
      && id !in s.book.updates && s.highest < id
      && u'.backoff == FRESH && u'.wakeupAt == s.now && u'.expiresAt <= MAX_INT32
    else
      && id in s.book.updates
      && u'.expiresAt == s.book.updates[id].expiresAt && u'.queueId == s.book.updates[id].queueId
      && if e.Retried? && e.id == id then
           && u'.backoff == AfterFailure(s.book.updates[id].backoff, e.failure)
           && u'.wakeupAt == s.now + EffectiveDelay(s.book.updates[id].backoff, e.failure) * NANOS
         else u'.backoff == s.book.updates[id].backoff && u'.wakeupAt == s.book.updates[id].wakeupAt
  }

  lemma StepChangesBackoff(s: State, e: Step, id: int)
    requires Inv(s) && Enabled(s, e) && id in Apply(s, e).book.updates
    ensures BackoffMoves(s, e, Apply(s, e), id)
  {
    hide Inv, Apply, Enabled, BackoffMoves;
    if e.Loaded? {
      LoadStartsBackoff(s, e, id);
    } else if Finishes(e) {
      FinishKeepsBackoff(s, e, id);
    } else if e.Retried? {
      RetryMovesBackoff(s, e, id);
    } else {
      OthersKeepBackoff(s, e, id);
    }
  }

  lemma LoadStartsBackoff(s: State, e: Step, id: int)
    requires Inv(s) && Enabled(s, e) && e.Loaded? && id in Apply(s, e).book.updates
    ensures BackoffMoves(s, e, Apply(s, e), id)
  {
    hide Inv;
    LoadAppends(s, e.id, e.queueId, e.queueId);
    LogFacts(s);
  }

  lemma FinishKeepsBackoff(s: State, e: Step, id: int)
    requires Enabled(s, e) && Finishes(e) && id in Apply(s, e).book.updates
    ensures BackoffMoves(s, e, Apply(s, e), id)
  {
    hide Waiting, Key, TooLate, AfterFailure, EffectiveDelay;
  }

  lemma RetryMovesBackoff(s: State, e: Step, id: int)
    requires Enabled(s, e) && e.Retried? && id in Apply(s, e).book.updates
    ensures BackoffMoves(s, e, Apply(s, e), id)
  {
    hide TooLate, AfterFailure, EffectiveDelay;
    RetryChangesBackoff(s, e.conn, e.id, e.failure, e.keep, id);
  }

  lemma OthersKeepBackoff(s: State, e: Step, id: int)
    requires Enabled(s, e) && !e.Loaded? && !Finishes(e) && !e.Retried? && id in Apply(s, e).book.updates
    ensures BackoffMoves(s, e, Apply(s, e), id)
  {
    hide Load, Finish, Delay, AfterFailure, EffectiveDelay;
  }

  lemma RetryChangesBackoff(s: State, conn: int, k: int, f: Failure, keep: bool, id: int)
    requires Carried(s, conn, k)
    ensures var b := Release(Delay(s.book, k, f, s.now), conn, keep);
      && b.updates.Keys == s.book.updates.Keys
      && (id != k && id in s.book.updates ==> b.updates[id] == s.book.updates[id])
      && b.updates[k] == s.book.updates[k].(
           backoff := AfterFailure(s.book.updates[k].backoff, f),
           wakeupAt := s.now + EffectiveDelay(s.book.updates[k].backoff, f) * NANOS)
  {
  }

  lemma LogFacts(s: State)
    requires Inv(s)
    ensures forall k | k in s.log :: s.log[k].expiresAt <= MAX_INT32
    ensures forall k | k in s.book.updates :: k <= s.highest
  {
  }

  lemma {:induction false} FailuresDrawable(s: State, tr: seq<Step>, id: int)
    requires FromStart(s, tr)
    ensures forall f | f in FailuresOf(tr, id) :: Drawable(f)
    ensures After(s, tr).highest < id ==> FailuresOf(tr, id) == []
    decreases |tr|
  {
    hide Inv, Apply;
    ReachedInv(s, tr);
    if tr != [] {
      FailuresDrawable(s, Front(tr), id);
      StepMovesUpdates(After(s, Front(tr)), Last(tr));
      LogFacts(After(s, Front(tr)));
    }
  }

  /** The delay and failure count of a pending update are those that the retry
      policy computes from the failures of the run. */
  lemma {:induction false} BackoffFollowsFailures(s: State, tr: seq<Step>, id: int)
    requires FromStart(s, tr)
    requires id in After(s, tr).book.updates
    ensures forall f | f in FailuresOf(tr, id) :: Drawable(f)
    ensures After(s, tr).book.updates[id].backoff == AfterFailures(FailuresOf(tr, id))
    decreases |tr|
  {
    hide Inv, Apply, Enabled;
    ReachedInv(s, tr);
    assert tr != [];
    var before, e := After(s, Front(tr)), Last(tr);
    FailuresDrawable(s, tr, id);
    FailuresDrawable(s, Front(tr), id);
    StepChangesBackoff(before, e, id);
    if !(e.Loaded? && e.id == id) {
      BackoffFollowsFailures(s, Front(tr), id);
      if e.Retried? && e.id == id {
        assert Front(FailuresOf(tr, id)) == FailuresOf(Front(tr), id);
      } else {
        assert FailuresOf(tr, id) == FailuresOf(Front(tr), id);
      }
    }
  }

  /** So after j doubling failures a pending update waits 2^j seconds, up to caps
      between 60 and 120, whatever was drawn and answered. */
  lemma PendingDelay(s: State, tr: seq<Step>, id: int)
    requires FromStart(s, tr)
    requires id in After(s, tr).book.updates
    ensures var b, j := After(s, tr).book.updates[id].backoff, Doublings(FailuresOf(tr, id));
      b.failCount == |FailuresOf(tr, id)| && Min(60, Pow2(j)) <= b.delay <= Min(120, Pow2(j))
  {
    BackoffFollowsFailures(s, tr, id);
    BackoffClosedForm(FailuresOf(tr, id));
  }

  /** Accounting for one update: every retry but the first has moved the wall
      clock at which the update may be sent next by at least a second. */
  ghost predicate RetriesAccounted(s: State, id: int, rs: seq<Step>, sends: nat) {
    && 0 < s.unixDiff + s.now
    && sends <= |rs| + 1
    && (forall r | r in rs :: r.Retried?)
    && (rs != [] ==> |rs| <= rs[0].expiresAt - rs[0].unixTime + 1)
    && (s.highest < id ==> rs == [] && sends == 0)
    && (id in s.book.updates ==>
          var u, flying := s.book.updates[id], InFlight(s.book.connections, id);
          && u.expiresAt <= MAX_INT32 && u.backoff.failCount == |rs| && u.backoff.delay >= 1
          && sends == |rs| + (if flying then 1 else 0)
          && (flying ==> u.wakeupAt <= s.now)
          && (rs != [] ==> u.expiresAt == rs[0].expiresAt
                           && UnixTime(s.unixDiff, u.wakeupAt) >= rs[0].unixTime + |rs| - 1))
  }

  lemma RetryAccounted(s: State, e: Step, rs: seq<Step>, sends: nat)
    requires Inv(s) && Enabled(s, e) && e.Retried?
    requires RetriesAccounted(s, e.id, rs, sends)
    ensures RetriesAccounted(Apply(s, e), e.id, rs + [e], sends)
  {
    hide Inv;
    LogFacts(s);
    StepMovesUpdates(s, e);
    StepChangesBackoff(s, e, e.id);
    StepChangesFlight(s, e, e.id);
    assert InFlight(s.book.connections, e.id);
    var u := s.book.updates[e.id];
    var wait := EffectiveDelay(u.backoff, e.failure);
    UnixTimeMonotone(s.unixDiff, u.wakeupAt, s.unixDiff, s.now);
    UnixTimeAdvances(s.unixDiff, s.now, wait);
  }

  lemma StepAccounted(s: State, e: Step, id: int, rs: seq<Step>, sends: nat)
    requires Inv(s) && Enabled(s, e) && id != NO_EVENT
    requires RetriesAccounted(s, id, rs, sends)
    requires !(e.Retried? && e.id == id)
    ensures RetriesAccounted(Apply(s, e), id, rs, sends + if e.Sent? && e.id == id then 1 else 0)
  {
    hide Inv;
    var s' := Apply(s, e);
    StepMovesUpdates(s, e);
    LogFacts(s);
    StepChangesFlight(s, e, id);
    if e.Sent? && e.id == id {
      DueIsIndexed(s, id);
    }
    if id in s'.book.updates {
      StepChangesBackoff(s, e, id);
      var w := s'.book.updates[id].wakeupAt;
      UnixTimeMonotone(s.unixDiff, w, s'.unixDiff, w);
      if e.Loaded? && e.id == id {
        NotYetLoaded(s, id);
      }
    }
  }

  lemma NotYetLoaded(s: State, id: int)
    requires Inv(s) && s.highest < id
    ensures !InFlight(s.book.connections, id)
  {
    LogFacts(s);
  }

  lemma DueIsIndexed(s: State, id: int)
    requires Inv(s) && Due(s, id)
    ensures !InFlight(s.book.connections, id) && id in s.book.updates
  {
    TakeKeepsQueues(s.book, id, s.now);
  }

  lemma StartAccounted(s: State, id: int)
    requires Initial(s) && id > NO_EVENT && 0 < s.unixDiff + s.now
    ensures RetriesAccounted(s, id, [], 0)
  {
  }

  lemma {:induction false} RunAccounted(s: State, tr: seq<Step>, id: int)
    requires FromStart(s, tr) && id > NO_EVENT && 0 < s.unixDiff + s.now
    ensures RetriesAccounted(After(s, tr), id, RetriesOf(tr, id), SendsOf(tr, id))
    decreases |tr|
  {
    hide Inv, Apply, RetriesAccounted;
    ReachedInv(s, tr);
    if tr == [] {
      StartAccounted(s, id);
    } else {
      RunAccounted(s, Front(tr), id);
      if Last(tr).Retried? && Last(tr).id == id {
        RetryAccounted(After(s, Front(tr)), Last(tr), RetriesOf(Front(tr), id), SendsOf(Front(tr), id));
      } else {
        assert RetriesOf(tr, id) == RetriesOf(Front(tr), id);
        StepAccounted(After(s, Front(tr)), Last(tr), id, RetriesOf(Front(tr), id), SendsOf(Front(tr), id));
      }
    }
  }

  /** An update that survives its first failure at unix time u and expires at x is
      sent at most x - u + 2 times, whatever the peer answers. */
  lemma FinitelyManySends(s: State, tr: seq<Step>, id: int)
    requires FromStart(s, tr) && id > NO_EVENT && 0 < s.unixDiff + s.now
    requires RetriesOf(tr, id) != []
    ensures var first := RetriesOf(tr, id)[0];
      first.Retried? && SendsOf(tr, id) <= first.expiresAt - first.unixTime + 2
  {
    RunAccounted(s, tr, id);
    assert RetriesOf(tr, id)[0] in RetriesOf(tr, id);
  }
}
