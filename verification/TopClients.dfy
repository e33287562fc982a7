/** The busiest clients for the statistics page: candidates without a score are
    skipped once there are enough others, and only the front of the list is sorted. */
module TopClients {
  import opened FiniteSets

  type Duration = d: real | 0.0 <= d

  /** What one bot has lately been asked and sent: requests and updates in the last
      minute and since the start, with the time that they were counted over. */
  datatype Load = Load(
    minuteEvents: nat,
    minute: Duration,
    allEvents: nat,
    allTime: Duration,
    activeRequests: nat,
    uploadBytes: nat)

  datatype ClientInfo = ClientInfo(token: string, load: Load, isActive: bool)

  function PerSecond(events: real, d: Duration): (rate: real)
    requires 0.0 <= events
    ensures 0.0 <= rate
  {
    if d != 0.0 then events / d else events
  }

  function Score(l: Load): (score: real)
    ensures 0.0 <= score
  {
    PerSecond(l.minuteEvents as real, l.minute) + PerSecond(0.01 * (l.allEvents as real), l.allTime)
    + (if l.activeRequests > 10 then (l.activeRequests - 10) as real else 0.0)
    + l.uploadBytes as real * 0.00000001
  }

  lemma OneMorePerSecond(events: real, more: real, d: Duration)
    requires 0.0 <= events && 0.0 <= more
    ensures PerSecond(events + more, d) == PerSecond(events, d) + PerSecond(more, d)
    ensures PerSecond(0.0, d) == 0.0
  {
  }

  /** An idle bot has no score. An event of the last minute adds the rate at which it
      comes, one since the start a hundredth of that; a request in progress adds one
      from the eleventh on, and so do a hundred million bytes in upload. */
  lemma ScoreGrows(l: Load)
    ensures Score(l.(minuteEvents := 0, allEvents := 0, activeRequests := 0, uploadBytes := 0)) == 0.0
    ensures Score(l.(minuteEvents := l.minuteEvents + 1)) - Score(l) == if l.minute == 0.0 then 1.0 else 1.0 / l.minute
    ensures Score(l.(allEvents := l.allEvents + 1)) - Score(l) == if l.allTime == 0.0 then 0.01 else 0.01 / l.allTime
    ensures Score(l.(activeRequests := l.activeRequests + 1)) - Score(l) == if l.activeRequests < 10 then 0.0 else 1.0
    ensures Score(l.(uploadBytes := l.uploadBytes + 1)) - Score(l) == 0.00000001
  {
    OneMorePerSecond(l.minuteEvents as real, 1.0, l.minute);
    OneMorePerSecond(0.01 * (l.allEvents as real), 0.01, l.allTime);
  }

  /** A conversion to an integer drops the fraction. */
  function Truncate(x: real): int {
    if x >= 0.0 then x.Floor else -((-x).Floor)
  }

  /** The smaller the key, the better the client. */
  function Key(info: ClientInfo): int {
    Truncate(Score(info.load) * -1000000000.0)
  }

  /** Keys put better scores first and tell apart any two that differ by 1e-9. */
  lemma KeyOrder(a: ClientInfo, b: ClientInfo)
    ensures Key(a) <= 0 && (Key(a) == 0 <==> Score(a.load) < 0.000000001)
    ensures Score(a.load) >= Score(b.load) ==> Key(a) <= Key(b)
    ensures Score(a.load) >= Score(b.load) + 0.000000001 ==> Key(a) < Key(b)
  {
    var x, y := Score(a.load), Score(b.load);
    assert -(x * -1000000000.0) == x * 1000000000.0 && -(y * -1000000000.0) == y * 1000000000.0;
    assert x * 1000000000.0 >= 0.0 && y * 1000000000.0 >= 0.0;
  }

  datatype Entry = Entry(key: int, id: nat)

  predicate Before(a: Entry, b: Entry) {
    a.key < b.key || (a.key == b.key && a.id < b.id)
  }

  // ---------- Sorting the front ----------

  predicate SameElements(a: seq<Entry>, b: seq<Entry>) {
    multiset(a) == multiset(b)
  }

  function Swap(s: seq<Entry>, i: nat, j: nat): (r: seq<Entry>)
    requires i < |s| && j < |s|
    ensures |r| == |s| && SameElements(r, s)
  {
    s[i := s[j]][j := s[i]]
  }

  /** The least entry from place `i` on. */
  method Least(s: seq<Entry>, i: nat) returns (m: nat)
    requires i < |s|
    ensures i <= m < |s| && forall k | i <= k < |s| :: !Before(s[k], s[m])
  {
    m := i;
    for k := i to |s|
      invariant i <= m < |s|
      invariant forall l | i <= l < k :: !Before(s[l], s[m])
    {
      if Before(s[k], s[m]) {
        m := k;
      }
    }
  }

  /** The first `count` places hold the least entries, in order; the rest is in any
      order. */
  predicate FrontSorted(s: seq<Entry>, count: nat) {
    count <= |s| && forall i, j | 0 <= i < count && i < j < |s| :: !Before(s[j], s[i])
  }

  predicate DistinctIds(s: seq<Entry>) {
    forall i, j | 0 <= i < j < |s| :: s[i].id != s[j].id
  }

  method PartialSort(entries: seq<Entry>, count: nat) returns (s: seq<Entry>)
    requires count <= |entries|
    ensures SameElements(s, entries) && FrontSorted(s, count)
    ensures DistinctIds(entries) ==> DistinctIds(s)
  {
    s := entries;
    for i := 0 to count
      invariant |s| == |entries| && SameElements(s, entries)
      invariant FrontSorted(s, i)
      invariant DistinctIds(entries) ==> DistinctIds(s)
    {
      var m := Least(s, i);
      SwapKeepsFront(s, i, m);
      s := Swap(s, i, m);
    }
  }

  lemma SwapKeepsFront(s: seq<Entry>, i: nat, m: nat)
    requires FrontSorted(s, i) && i <= m < |s| && forall k | i <= k < |s| :: !Before(s[k], s[m])
    ensures FrontSorted(Swap(s, i, m), i + 1)
  {
  }

  // ---------- The best clients ----------

  predicate Matches(clients: map<nat, ClientInfo>, tokenFilter: string, id: nat) {
    id in clients && tokenFilter <= clients[id].token
  }

  function Matching(clients: map<nat, ClientInfo>, tokenFilter: string, ids: seq<nat>): set<nat> {
    set id | id in ids && Matches(clients, tokenFilter, id)
  }

  /** The `ids` are distinct clients with the filter, best first, and nobody left out
      is better than any of them. */
  ghost predicate IsTop(clients: map<nat, ClientInfo>, matching: set<nat>, ids: seq<nat>) {
    && (forall id | id in ids :: id in matching && id in clients)
    && (forall id | id in matching :: id in clients)
    && (forall i, j | 0 <= i < j < |ids| ::
          Key(clients[ids[i]]) < Key(clients[ids[j]])
          || (Key(clients[ids[i]]) == Key(clients[ids[j]]) && ids[i] < ids[j]))
    && (forall i, id | 0 <= i < |ids| && id in matching && id !in ids ::
          Key(clients[ids[i]]) <= Key(clients[id]))
  }

  function Elements(ids: seq<nat>): set<nat> {
    set id | id in ids
  }

  lemma {:induction false} ElementsSize(ids: seq<nat>)
    ensures |Elements(ids)| <= |ids|
    ensures (forall i, j | 0 <= i < j < |ids| :: ids[i] != ids[j]) ==> |Elements(ids)| == |ids|
  {
    if ids == [] {
      assert Elements(ids) == {};
    } else {
      var rest, last := ids[..|ids| - 1], ids[|ids| - 1];
      ElementsSize(rest);
      assert ids == rest + [last];
      assert Elements(ids) == Elements(rest) + {last};
    }
  }

  lemma TopIsDistinct(clients: map<nat, ClientInfo>, matching: set<nat>, a: seq<nat>)
    requires IsTop(clients, matching, a)
    ensures forall i, j | 0 <= i < j < |a| :: a[i] != a[j]
  {
    hide Key;
  }

  /** A client that is better than the one at place `i` of a best list comes before it. */
  lemma BetterComesFirst(clients: map<nat, ClientInfo>, matching: set<nat>, a: seq<nat>, b: seq<nat>, i: nat, j: nat)
    requires IsTop(clients, matching, a) && IsTop(clients, matching, b) && j <= i < |a| && i < |b|
    requires a[i] in clients && b[i] in clients && Key(clients[a[i]]) < Key(clients[b[i]])
    ensures a[j] in b[..i]
  {
    hide Key;
    assert a[j] in a && a[j] in matching;
    assert Key(clients[a[j]]) <= Key(clients[a[i]]);
    assert b[i] in b;
    assert a[j] in b;
    var k :| 0 <= k < |b| && b[k] == a[j];
    assert k < i;
    assert b[..i][k] == a[j];
  }

  lemma TopIsNotBetter(clients: map<nat, ClientInfo>, matching: set<nat>, a: seq<nat>, b: seq<nat>, i: nat)
    requires IsTop(clients, matching, a) && IsTop(clients, matching, b) && i < |a| && i < |b|
    ensures Key(clients[b[i]]) <= Key(clients[a[i]])
  {
    hide Key, IsTop;
    TopMembersKnown(clients, matching, a, i);
    TopMembersKnown(clients, matching, b, i);
    if Key(clients[a[i]]) < Key(clients[b[i]]) {
      TopIsDistinct(clients, matching, a);
      forall j | 0 <= j <= i
        ensures a[j] in b[..i]
      {
        BetterComesFirst(clients, matching, a, b, i, j);
      }
      ElementsSize(a[..i + 1]);
      ElementsSize(b[..i]);
      SubsetSize(Elements(a[..i + 1]), Elements(b[..i]));
      assert false;
    }
  }

  /** The scores of the best clients do not depend on which of the equally good ones
      were taken; so skipping candidates cannot change them. */
  lemma TopKeysAreUnique(clients: map<nat, ClientInfo>, matching: set<nat>, a: seq<nat>, b: seq<nat>)
    requires IsTop(clients, matching, a) && IsTop(clients, matching, b) && |a| == |b|
    ensures forall i | 0 <= i < |a| :: Key(clients[a[i]]) == Key(clients[b[i]])
  {
    hide Key, IsTop;
    forall i | 0 <= i < |a|
      ensures a[i] in clients && b[i] in clients && Key(clients[a[i]]) == Key(clients[b[i]])
    {
      TopMembersKnown(clients, matching, a, i);
      TopMembersKnown(clients, matching, b, i);
      TopIsNotBetter(clients, matching, a, b, i);
      TopIsNotBetter(clients, matching, b, a, i);
    }
  }

  lemma TopMembersKnown(clients: map<nat, ClientInfo>, matching: set<nat>, a: seq<nat>, i: nat)
    requires IsTop(clients, matching, a) && i < |a|
    ensures a[i] in clients
  {
    hide Key;
  }

  /** Every matching client is a candidate, or its key is 0 and there are enough
      candidates without it. */
  ghost predicate Candidates(clients: map<nat, ClientInfo>, matching: set<nat>, entries: seq<Entry>, maxCount: nat) {
    && DistinctIds(entries)
    && (forall k | 0 <= k < |entries| ::
          entries[k].id in matching && entries[k].id in clients && entries[k].key == Key(clients[entries[k].id]))
    && (forall id | id in matching ::
          id in clients && (HasId(entries, id) || (Key(clients[id]) == 0 && |entries| >= maxCount)))
  }

  ghost predicate HasId(entries: seq<Entry>, id: nat) {
    exists k | 0 <= k < |entries| :: entries[k].id == id
  }

  function Ids(entries: seq<Entry>): (ids: seq<nat>)
    ensures |ids| == |entries| && forall k | 0 <= k < |ids| :: ids[k] == entries[k].id
  {
    seq(|entries|, k requires 0 <= k < |entries| => entries[k].id)
  }

  function IdSet(entries: seq<Entry>): set<nat> {
    set e | e in entries :: e.id
  }

  lemma {:induction false} DistinctIdsSize(entries: seq<Entry>)
    requires DistinctIds(entries)
    ensures |IdSet(entries)| == |entries|
  {
    if entries == [] {
      assert IdSet(entries) == {};
    } else {
      var rest, last := entries[..|entries| - 1], entries[|entries| - 1];
      DistinctIdsSize(rest);
      assert entries == rest + [last];
      assert IdSet(entries) == IdSet(rest) + {last.id};
    }
  }

  /** There are enough candidates, and none that is not needed is missed. */
  lemma EnoughCandidates(clients: map<nat, ClientInfo>, matching: set<nat>, entries: seq<Entry>, maxCount: nat)
    requires Candidates(clients, matching, entries, maxCount)
    ensures DistinctIds(entries)
    ensures |entries| <= |matching| && (|entries| < maxCount ==> |entries| == |matching|)
  {
    DistinctIdsSize(entries);
    SubsetSize(IdSet(entries), matching);
    if |entries| < maxCount {
      assert forall id | id in matching :: id in IdSet(entries);
      assert IdSet(entries) == matching;
    }
  }

  /** Sorting the front of the candidates finds the best of all the matching
      clients, although some were skipped. */
  lemma FrontIsTop(clients: map<nat, ClientInfo>, matching: set<nat>, entries: seq<Entry>, s: seq<Entry>, maxCount: nat)
    requires Candidates(clients, matching, entries, maxCount)
    requires SameElements(s, entries) && DistinctIds(s) && |s| == |entries|
    requires FrontSorted(s, if |s| < maxCount then |s| else maxCount)
    ensures IsTop(clients, matching, Ids(s[..if |s| < maxCount then |s| else maxCount]))
  {
    hide Key, HasId;
    var count := if |s| < maxCount then |s| else maxCount;
    var ids := Ids(s[..count]);
    forall k | 0 <= k < |s|
      ensures s[k].id in matching && s[k].id in clients && s[k].key == Key(clients[s[k].id])
    {
      assert s[k] in multiset(s);
      assert s[k] in entries;
    }
    forall i, id | 0 <= i < count && id in matching && id !in ids
      ensures Key(clients[ids[i]]) <= Key(clients[id])
    {
      assert forall l | 0 <= l < count :: s[l].id == ids[l] && ids[l] != id;
      KeyOrder(clients[ids[i]], clients[ids[i]]);
      LeftOutIsNotBetter(clients, matching, entries, s, maxCount, i, id);
    }
  }

  lemma LeftOutIsNotBetter(clients: map<nat, ClientInfo>, matching: set<nat>, entries: seq<Entry>, s: seq<Entry>,
                           maxCount: nat, i: nat, id: nat)
    requires Candidates(clients, matching, entries, maxCount) && id in matching
    requires SameElements(s, entries) && |s| == |entries|
    requires var count := if |s| < maxCount then |s| else maxCount;
      FrontSorted(s, count) && i < count && forall l | 0 <= l < count :: s[l].id != id
    requires s[i].key <= 0
    ensures s[i].key <= Key(clients[id])
  {
    hide Key;
    if HasId(entries, id) {
      var k :| 0 <= k < |entries| && entries[k].id == id;
      assert entries[k] in multiset(s);
      var l :| 0 <= l < |s| && s[l] == entries[k];
      assert !Before(s[l], s[i]);
    }
  }

  function ActiveAmong(clients: map<nat, ClientInfo>, ids: seq<nat>): set<nat> {
    set id | id in ids && id in clients && clients[id].isActive
  }

  method GetTopClients(clients: map<nat, ClientInfo>, ids: seq<nat>, maxCount: nat, tokenFilter: string)
    returns (activeCount: nat, topIds: seq<nat>)
    requires forall id | id in ids :: id in clients
    requires forall i, j | 0 <= i < j < |ids| :: ids[i] != ids[j]
    ensures var matching := Matching(clients, tokenFilter, ids);
      && IsTop(clients, matching, topIds)
      && |topIds| == if |matching| < maxCount then |matching| else maxCount
    ensures activeCount == |ActiveAmong(clients, ids)|
  {
    hide Key, Candidates, Matching, ActiveAmong, IsTop, FrontSorted, SameElements, DistinctIds;
    activeCount := 0;
    var entries: seq<Entry> := [];
    NoCandidates(clients, tokenFilter, ids[..0], maxCount);
    for i := 0 to |ids|
      invariant activeCount == |ActiveAmong(clients, ids[..i])|
      invariant Candidates(clients, Matching(clients, tokenFilter, ids[..i]), entries, maxCount)
    {
      var info := clients[ids[i]];
      assert ids[..i + 1] == ids[..i] + [ids[i]];
      ActiveOneMore(clients, ids[..i], ids[i]);
      if info.isActive {
        activeCount := activeCount + 1;
      }
      CandidatesOneMore(clients, tokenFilter, ids[..i], ids[i], entries, maxCount);
      if tokenFilter <= info.token {
        var score := Key(info);
        if score != 0 || |entries| < maxCount {
          entries := entries + [Entry(score, ids[i])];
        }
      }
    }
    assert ids[..|ids|] == ids;
    EnoughCandidates(clients, Matching(clients, tokenFilter, ids), entries, maxCount);
    var count := if |entries| < maxCount then |entries| else maxCount;
    var sorted := PartialSort(entries, count);
    SameSize(sorted, entries);
    FrontIsTop(clients, Matching(clients, tokenFilter, ids), entries, sorted, maxCount);
    topIds := [];
    for i := 0 to count
      invariant topIds == Ids(sorted[..i])
    {
      topIds := topIds + [sorted[i].id];
    }
  }

  lemma NoCandidates(clients: map<nat, ClientInfo>, tokenFilter: string, ids: seq<nat>, maxCount: nat)
    requires ids == []
    ensures Candidates(clients, Matching(clients, tokenFilter, ids), [], maxCount)
    ensures |ActiveAmong(clients, ids)| == 0
  {
    assert ActiveAmong(clients, ids) == {};
  }

  lemma SameSize(a: seq<Entry>, b: seq<Entry>)
    requires SameElements(a, b)
    ensures |a| == |b|
  {
    assert |multiset(a)| == |a| && |multiset(b)| == |b|;
  }

  lemma ActiveOneMore(clients: map<nat, ClientInfo>, ids: seq<nat>, id: nat)
    requires id in clients && id !in ids
    ensures |ActiveAmong(clients, ids + [id])| == |ActiveAmong(clients, ids)| + if clients[id].isActive then 1 else 0
  {
    assert ActiveAmong(clients, ids + [id]) == ActiveAmong(clients, ids) + if clients[id].isActive then {id} else {};
  }

  lemma MatchingOneMore(clients: map<nat, ClientInfo>, tokenFilter: string, ids: seq<nat>, id: nat)
    requires id in clients && id !in ids
    ensures id !in Matching(clients, tokenFilter, ids)
    ensures Matching(clients, tokenFilter, ids + [id])
            == Matching(clients, tokenFilter, ids) + if tokenFilter <= clients[id].token then {id} else {}
  {
  }

  lemma CandidateAdded(clients: map<nat, ClientInfo>, matching: set<nat>, entries: seq<Entry>, maxCount: nat, id: nat)
    requires Candidates(clients, matching, entries, maxCount) && id in clients && id !in matching
    ensures Candidates(clients, matching + {id}, entries + [Entry(Key(clients[id]), id)], maxCount)
  {
    hide Key, HasId;
    var more := entries + [Entry(Key(clients[id]), id)];
    forall other | other in matching + {id}
      ensures HasId(entries, other) || other == id ==> HasId(more, other)
    {
      IdStays(entries, more[|entries|], other);
    }
  }

  lemma IdStays(entries: seq<Entry>, e: Entry, id: nat)
    ensures HasId(entries, id) || id == e.id ==> HasId(entries + [e], id)
  {
    if HasId(entries, id) {
      var k :| 0 <= k < |entries| && entries[k].id == id;
      assert (entries + [e])[k].id == id;
    } else if id == e.id {
      assert (entries + [e])[|entries|].id == id;
    }
  }

  lemma CandidateSkipped(clients: map<nat, ClientInfo>, matching: set<nat>, entries: seq<Entry>, maxCount: nat, id: nat)
    requires Candidates(clients, matching, entries, maxCount) && id in clients
    requires Key(clients[id]) == 0 && |entries| >= maxCount
    ensures Candidates(clients, matching + {id}, entries, maxCount)
  {
    hide Key, HasId;
  }

  lemma CandidatesOneMore(clients: map<nat, ClientInfo>, tokenFilter: string, ids: seq<nat>, id: nat,
                          entries: seq<Entry>, maxCount: nat)
    requires id in clients && id !in ids
    requires Candidates(clients, Matching(clients, tokenFilter, ids), entries, maxCount)
    ensures var matching, key := Matching(clients, tokenFilter, ids + [id]), Key(clients[id]);
      Candidates(clients, matching,
                 if tokenFilter <= clients[id].token && (key != 0 || |entries| < maxCount)
                 then entries + [Entry(key, id)] else entries, maxCount)
  {
    hide Key, Matching, Candidates;
    MatchingOneMore(clients, tokenFilter, ids, id);
    if tokenFilter <= clients[id].token {
      if Key(clients[id]) != 0 || |entries| < maxCount {
        CandidateAdded(clients, Matching(clients, tokenFilter, ids), entries, maxCount, id);
      } else {
        CandidateSkipped(clients, Matching(clients, tokenFilter, ids), entries, maxCount, id);
      }
    } else {
      assert Matching(clients, tokenFilter, ids + [id]) == Matching(clients, tokenFilter, ids);
    }
  }
}
