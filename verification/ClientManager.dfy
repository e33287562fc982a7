/** The manager of all bots: one client for each token, created on the first query
    and never again once the server is closing. */
module ClientManagers {
  import opened Options
  import opened UnixClock
  import opened ClientRegistry

  const MAX_TOKEN_SIZE := 80
  const USER_ID_LIMIT := 0x40_0000_0000_0000
  const TWO_TO_64 := 0x1_0000_0000_0000_0000

  /** What a query shows of itself; `userId` is the number before the colon of its
      token, if it is one of 64 bits, and `ip` the normalized peer address. */
  datatype Query = Query(token: string, userId: Option<int>, isTestDc: bool, method_: string, ip: string)

  /** Only user identifiers with one remainder are served. */
  datatype TokenRange = TokenRange(rem: nat, mod: nat)
  {
    /** The identifier is converted to an unsigned number of 64 bits. */
    predicate Contains(userId: int)
      requires mod > 0
    {
      userId % TWO_TO_64 % mod == rem
    }
  }

  /** When the flood controls let the next client in. */
  datatype Flood = Flood(ipWakeupAt: int, globalWakeupAt: int)

  datatype Answer = Dropped | Failed(code: int) | RetryAfter(seconds: int) | Forwarded(id: nat)

  // ---------- Names of bots ----------

  function TqueueId(userId: int, isTestDc: bool): int {
    userId + if isTestDc then USER_ID_LIMIT else 0
  }

  function KeyOf(token: string, isTestDc: bool): string {
    token + if isTestDc then "/test" else ""
  }

  /** No two bots share an update queue. */
  lemma TqueueIdsApart(u: int, a: bool, v: int, b: bool)
    requires 0 < u < USER_ID_LIMIT && 0 < v < USER_ID_LIMIT
    ensures TqueueId(u, a) == TqueueId(v, b) <==> u == v && a == b
    ensures TqueueId(u, a) != 0
  {
  }

  /** The number of an update queue gives back the bot and its data center, which is how
      the webhook actor names the bot of a query that it passes on. */
  lemma TqueueIdNamesBot(u: int, a: bool)
    requires 0 < u < USER_ID_LIMIT
    ensures TqueueId(u, a) % 0x40_0000_0000_0000 == u
    ensures TqueueId(u, a) >= 0x40_0000_0000_0000 <==> a
    ensures TqueueId(u, a) < 2 * 0x40_0000_0000_0000
  {
  }

  /** The same token on the two data centers names two bots. */
  lemma KeysApart(t: string, a: bool, u: string, b: bool)
    requires '/' !in t && '/' !in u
    ensures KeyOf(t, a) == KeyOf(u, b) <==> t == u && a == b
    ensures KeyOf(t, false) == t && KeyOf(t, true) == t + "/test"
  {
    assert '/' in KeyOf(t, a) <==> a by {
      assert a ==> KeyOf(t, a)[|t|] == '/';
    }
    assert '/' in KeyOf(u, b) <==> b by {
      assert b ==> KeyOf(u, b)[|u|] == '/';
    }
    if KeyOf(t, a) == KeyOf(u, b) {
      assert KeyOf(t, a)[..|t|] == t && KeyOf(u, b)[..|u|] == u;
    }
  }

  /** The status code with which a query is refused for its token. */
  function Refusal(query: Query, range: TokenRange): Option<int>
    requires range.mod > 0
  {
    var t := query.token;
    if (t != "" && t[0] == '0') || |t| > MAX_TOKEN_SIZE || '/' in t || ':' !in t then Some(401)
    else
      match query.userId
      case None => Some(421)
      case Some(userId) =>
        if !range.Contains(userId) then Some(421)
        else if userId <= 0 || userId >= USER_ID_LIMIT then Some(401)
        else None
  }

  predicate WellFormedToken(t: string) {
    |t| <= 80 && '/' !in t && ':' in t && t[0] != '0'
  }

  /** The identifiers that a server serves, as 64 bits are read without a sign. */
  predicate Serves(range: TokenRange, userId: int)
    requires range.mod > 0
  {
    (if userId < 0 then userId + 0x1_0000_0000_0000_0000 else userId) % range.mod == range.rem
  }

  /** A query gets past the checks on its token exactly with a well-formed one of a bot
      that this server serves. An unreadable identifier, or one of another server, is
      misdirected; everything else is unauthorized. */
  lemma RefusedIff(query: Query, range: TokenRange)
    requires range.mod > 0
    requires query.userId.Some? ==> -0x8000_0000_0000_0000 <= query.userId.value < 0x8000_0000_0000_0000
    ensures Refusal(query, range) == None
            <==> && WellFormedToken(query.token) && query.userId.Some?
                 && 0 < query.userId.value < 0x40_0000_0000_0000
                 && query.userId.value % range.mod == range.rem
    ensures Refusal(query, range) == Some(421)
            <==> WellFormedToken(query.token) && (query.userId.Some? ==> !Serves(range, query.userId.value))
    ensures Refusal(query, range) in {None, Some(401), Some(421)}
  {
    assert ':' in query.token ==> query.token != "";
  }

  /** A caller that waits this long comes after the flood control's wake-up, and
      less than a second after it. */
  function SecondsUntil(wakeupAt: int, now: int): (seconds: int)
    requires now < wakeupAt
    ensures seconds >= 1 && wakeupAt < now + seconds * NANOS <= wakeupAt + NANOS
  {
    (wakeupAt - now) / NANOS + 1
  }

  /** What keeps a query from creating a client for its token. */
  function Obstacle(query: Query, flood: Flood, globalEnabled: bool, now: int): Option<Answer> {
    if query.method_ == "close" then Some(Failed(400))
    else if query.ip != "" && flood.ipWakeupAt > now then Some(RetryAfter(SecondsUntil(flood.ipWakeupAt, now)))
    else if globalEnabled && flood.globalWakeupAt > now then Some(RetryAfter(SecondsUntil(flood.globalWakeupAt, now)))
    else None
  }

  /** A wait that ends after the flood control's wake-up, by a second at most. */
  predicate WaitsUntil(answer: Answer, wakeupAt: int, now: int) {
    answer.RetryAfter? && answer.seconds >= 1 && wakeupAt < now + answer.seconds * NANOS <= wakeupAt + NANOS
  }

  /** A bot that is not there cannot be closed. A new one has to wait for the flood
      control of its address, and then for the global one, if they are in force. */
  lemma HeldBackIff(query: Query, flood: Flood, globalEnabled: bool, now: int)
    ensures var o := Obstacle(query, flood, globalEnabled, now);
      var byIp, byAll := query.ip != "" && flood.ipWakeupAt > now, globalEnabled && flood.globalWakeupAt > now;
      && (o == Some(Failed(400)) <==> query.method_ == "close")
      && (o == None <==> query.method_ != "close" && !byIp && !byAll)
      && (query.method_ != "close" && byIp ==> o.Some? && WaitsUntil(o.value, flood.ipWakeupAt, now))
      && (query.method_ != "close" && !byIp && byAll ==> o.Some? && WaitsUntil(o.value, flood.globalWakeupAt, now))
  {
  }

  // ---------- The manager ----------

  class ClientManager {
    const tokenRange: TokenRange
    var clients: map<nat, Client>
    var tokenToId: map<string, nat>
    var activeClientCount: map<int, nat>
    var closeFlag: bool
    var closePromises: seq<nat>
    var isGlobalFloodControlEnabled: bool

    ghost var active: set<nat>
    ghost var told: set<nat>
    ghost var dbCloses: nat
    ghost var fulfilled: seq<nat>
    ghost var stopped: bool

    /** Everything that has happened to the registry. */
    ghost var history: seq<Event>

    ghost function Current(): Registry
      reads `clients, `tokenToId, `activeClientCount, `closeFlag, `closePromises,
            `active, `told, `dbCloses, `fulfilled, `stopped
    {
      Registry(clients, tokenToId, activeClientCount, closeFlag, closePromises,
               active, told, dbCloses, fulfilled, stopped)
    }

    ghost predicate Valid()
      reads `clients, `tokenToId, `activeClientCount, `closeFlag, `closePromises,
            `active, `told, `dbCloses, `fulfilled, `stopped, `history
    {
      tokenRange.mod > 0 && ValidRun(EMPTY, history) && After(EMPTY, history) == Current() && Inv(Current())
    }

    constructor (tokenRange: TokenRange)
      requires tokenRange.mod > 0
      ensures Valid() && history == [] && !closeFlag && clients == map[] && this.tokenRange == tokenRange
    {
      this.tokenRange := tokenRange;
      clients, tokenToId, activeClientCount := map[], map[], map[];
      closeFlag, closePromises, isGlobalFloodControlEnabled := false, [], false;
      active, told, dbCloses, fulfilled, stopped, history := {}, {}, 0, [], false, [];
    }

    /** The step `e` has been taken. */
    ghost method Record(e: Event)
      requires tokenRange.mod > 0 && ValidRun(EMPTY, history) && Inv(After(EMPTY, history))
      requires Enabled(After(EMPTY, history), e) && Apply(After(EMPTY, history), e) == Current()
      modifies `history
      ensures history == old(history) + [e] && Valid()
    {
      StepKeepsInv(After(EMPTY, history), e);
      assert (history + [e])[..|history|] == history;
      history := history + [e];
    }

    /** Answers a query itself, or hands it to the only client that has its token. */
    method Send(query: Query, flood: Flood, now: int, newId: nat) returns (answer: Answer)
      requires Valid() && !stopped && newId !in clients
      modifies `clients, `tokenToId, `history
      ensures Valid()
      ensures var key, refusal := KeyOf(query.token, query.isTestDc), Refusal(query, tokenRange);
        var obstacle := Obstacle(query, flood, isGlobalFloodControlEnabled, now);
        var admitted := !closeFlag && refusal.None?;
        var created := admitted && key !in old(tokenToId) && obstacle.None?;
        && answer == (if closeFlag then Dropped
                      else if refusal.Some? then Failed(refusal.value)
                      else if key in old(tokenToId) then Forwarded(old(tokenToId)[key])
                      else if obstacle.Some? then obstacle.value
                      else Forwarded(newId))
        && history == old(history)
                      + (if created then [Create(key, newId, TqueueId(query.userId.value, query.isTestDc))] else [])
        && (answer.Forwarded? ==> answer.id in clients && clients[answer.id].key == key)
        && (if created then
              && clients == old(clients)[newId := Client(key, TqueueId(query.userId.value, query.isTestDc))]
              && tokenToId == old(tokenToId)[key := newId]
            else clients == old(clients) && tokenToId == old(tokenToId))
    {
      hide ValidRun, After, Counted, ShutdownOnce;
      if closeFlag {
        return Dropped;
      }
      var refusal := Refusal(query, tokenRange);
      if refusal.Some? {
        return Failed(refusal.value);
      }
      var token := KeyOf(query.token, query.isTestDc);
      if token !in tokenToId {
        if query.method_ == "close" {
          return Failed(400);
        }
        if query.ip != "" && flood.ipWakeupAt > now {
          return RetryAfter(SecondsUntil(flood.ipWakeupAt, now));
        }
        if isGlobalFloodControlEnabled && flood.globalWakeupAt > now {
          return RetryAfter(SecondsUntil(flood.globalWakeupAt, now));
        }
        var tqueueId := TqueueId(query.userId.value, query.isTestDc);
        clients := clients[newId := Client(token, tqueueId)];
        tokenToId := tokenToId[token := newId];
        Record(Create(token, newId, tqueueId));
      }
      answer := Forwarded(tokenToId[token]);
    }

    /** Sends `Client::close` to every client, once each. */
    method TellClients() returns (sent: seq<nat>)
      ensures forall id :: id in sent <==> id in clients
      ensures forall i, j | 0 <= i < j < |sent| :: sent[i] != sent[j]
    {
      var ids := clients.Keys;
      sent := [];
      while ids != {}
        invariant ids <= clients.Keys
        invariant forall id :: id in sent <==> id in clients.Keys - ids
        invariant forall i, j | 0 <= i < j < |sent| :: sent[i] != sent[j]
        decreases |ids|
      {
        var id :| id in ids;
        assert id !in sent;
        sent := sent + [id];
        ids := ids - {id};
      }
    }

    /** Keeps the promise, and on the first request tells every client to close. */
    method Close(promise: nat)
      requires Valid() && !stopped
      modifies `closeFlag, `closePromises, `told, `dbCloses, `history
      ensures Valid() && history == old(history) + [ClientRegistry.Close(promise)]
      ensures told == if old(closeFlag) then old(told) else clients.Keys
    {
      hide ValidRun, After, Inv;
      closePromises := closePromises + [promise];
      if closeFlag {
        Record(ClientRegistry.Close(promise));
        return;
      }
      closeFlag := true;
      var sent := TellClients();
      told := set id | id in sent;
      assert told == clients.Keys;
      if clients.Keys == {} {
        dbCloses := dbCloses + 1;
      }
      Record(ClientRegistry.Close(promise));
    }

    /** A client says that it has become active, or that it no longer is. */
    method RawEvent(id: nat, up: bool)
      requires Valid() && !stopped && id in clients && (id in active <==> !up)
      modifies `activeClientCount, `active, `history
      ensures Valid() && history == old(history) + [if up then Activate(id) else Deactivate(id)]
    {
      hide ValidRun, After, Mirror, ShutdownOnce;
      var q := clients[id].tqueueId;
      assert q != 0;
      var value := if q in activeClientCount then activeClientCount[q] else 0;
      if up {
        activeClientCount := activeClientCount[q := value + 1];
        active := active + {id};
        Record(Activate(id));
      } else {
        assert value > 0 by {
          assert id in ActiveOn(Current(), q);
        }
        value := value - 1;
        activeClientCount := if value == 0 then activeClientCount - {q} else activeClientCount[q := value];
        active := active - {id};
        Record(Deactivate(id));
      }
    }

    /** A client has ended; after the last one of a shutdown the databases close. */
    method HangupShared(id: nat)
      requires Valid() && !stopped && id in clients && id !in active
      modifies `clients, `tokenToId, `dbCloses, `history
      ensures Valid() && history == old(history) + [HungUp(id)]
    {
      tokenToId := tokenToId - {clients[id].key};
      clients := clients - {id};
      if closeFlag && clients == map[] {
        dbCloses := dbCloses + 1;
      }
      Record(HungUp(id));
      if clients == map[] {
        NobodyActive(Current());
        assert activeClientCount == map[];
      }
    }

    /** The databases are closed: everyone who asked for it is told. */
    method FinishClose()
      requires Valid() && !stopped && dbCloses > 0
      modifies `closePromises, `fulfilled, `stopped, `history
      ensures Valid() && history == old(history) + [DbClosed]
      ensures stopped && fulfilled == Requests(history)
    {
      var promises := closePromises;
      closePromises := [];
      fulfilled := fulfilled + promises;
      stopped := true;
      Record(DbClosed);
      EveryPromiseOnce(history);
    }
  }
}
