/** Which sub-clients a multi-client uses for a message, and what sending with them
    reports. Go iterates over a map in any order, so every loop takes an
    arbitrary order of the client ids. Scores are real numbers. */
module Policy {
  import opened Wrappers
  import opened Identifier
  import opened Lifecycle

  datatype Rule = CrossSendNone | AnyConnected | AllConnected | PreferStable | UnknownRule

  const HOUR_MS: real := 3600000.0

  function Min(a: real, b: real): real {
    if a <= b then a else b
  }

  /** Half a point, up to 0.4 for an hour of uptime, minus up to 0.1 each for
      reconnections and failed sends. */
  function Score(l: Life, now: int): (r: real)
    ensures 0.3 <= r <= 0.9
  {
    if l.stats.None? || l.stats.value.connectTime <= 0 then 0.5
    else
      var s := l.stats.value;
      var uptime := now - s.connectTime;
      0.5 + (if uptime > 0 then Min((uptime as real) / HOUR_MS, 1.0) * 0.4 else 0.0)
      - Min((s.reconnectCount as real) * 0.02, 0.1)
      - Min((s.sendFailureCount as real) * 0.01, 0.1)
  }

  method CalculateClientScore(l: Life, now: int) returns (score: real)
    ensures score == Score(l, now)
  {
    score := 0.5;
    if l.stats.Some? && l.stats.value.connectTime > 0 {
      var s := l.stats.value;
      var uptime := now - s.connectTime;
      if uptime > 0 {
        var durationScore := (uptime as real) / HOUR_MS;
        if durationScore > 1.0 {
          durationScore := 1.0;
        }
        score := score + durationScore * 0.4;
      }
      var reconnectPenalty := (s.reconnectCount as real) * 0.02;
      if reconnectPenalty > 0.1 {
        reconnectPenalty := 0.1;
      }
      score := score - reconnectPenalty;
      var sendFailurePenalty := (s.sendFailureCount as real) * 0.01;
      if sendFailurePenalty > 0.1 {
        sendFailurePenalty := 0.1;
      }
      score := score - sendFailurePenalty;
    }
    assert score == Score(l, now);
    if score < 0.0 {
      score := 0.0;
    }
    if score > 1.0 {
      score := 1.0;
    }
  }

  /** Longer uptime never lowers the score; more reconnections or failures never raise it. */
  lemma ScoreMonotone(l: Life, l': Life, now: int)
    requires l.stats.Some? && l'.stats.Some? && 0 < l.stats.value.connectTime <= l'.stats.value.connectTime
    requires l.stats.value.reconnectCount <= l'.stats.value.reconnectCount
    requires l.stats.value.sendFailureCount <= l'.stats.value.sendFailureCount
    ensures Score(l, now) >= Score(l', now)
  {
    var s, s' := l.stats.value, l'.stats.value;
    var u, u' := now - s.connectTime, now - s'.connectTime;
    if u' > 0 {
      assert (u as real) / HOUR_MS >= (u' as real) / HOUR_MS;
    }
  }

  /** The extremes are reached exactly by an hour of flawless uptime, and by no
      uptime with at least five reconnections and ten failed sends. */
  lemma ScoreExtremes(l: Life, now: int)
    requires l.stats.Some? && l.stats.value.connectTime > 0
    ensures var s := l.stats.value; var uptime := now - s.connectTime;
      && (Score(l, now) == 0.9 <==> uptime >= 3600000 && s.reconnectCount == 0 && s.sendFailureCount == 0)
      && (Score(l, now) == 0.3 <==> uptime <= 0 && s.reconnectCount >= 5 && s.sendFailureCount >= 10)
  {
    var uptime := now - l.stats.value.connectTime;
    assert (uptime as real) / HOUR_MS >= 1.0 <==> uptime >= 3600000;
  }

  function WithCounts(l: Life, reconnects: nat, failures: nat): Life
    requires l.stats.Some?
  {
    l.(stats := Some(l.stats.value.(reconnectCount := reconnects, sendFailureCount := failures)))
  }

  /** What each event is worth: 0.02 for each of the first five reconnections, 0.01 for
      each of the first ten failed sends, and 0.4 spread evenly over the first hour;
      a client without a connection time has half a point. */
  lemma ScoreSteps(l: Life, now: int)
    ensures l.stats.None? || l.stats.value.connectTime <= 0 ==> Score(l, now) == 0.5
    ensures l.stats.Some? && l.stats.value.connectTime > 0 ==>
      var s := l.stats.value; var uptime := now - s.connectTime;
      && Score(WithCounts(l, s.reconnectCount + 1, s.sendFailureCount), now)
         == Score(l, now) - (if s.reconnectCount < 5 then 0.02 else 0.0)
      && Score(WithCounts(l, s.reconnectCount, s.sendFailureCount + 1), now)
         == Score(l, now) - (if s.sendFailureCount < 10 then 0.01 else 0.0)
      && Score(l, now + 1) == Score(l, now) + (if 0 <= uptime < 3600000 then 0.4 / 3600000.0 else 0.0)
  {
  }

  // ------------------------------------------------------------ selection

  /** A nil entry stands for a nil client pointer. */
  type Clients = map<int, Option<Life>>

  predicate IsOpenConnected(clients: Clients, id: int) {
    id in clients && clients[id].Some? && !clients[id].value.closed && clients[id].value.conn == Connected
  }

  ghost predicate IsOrder(order: seq<int>, clients: Clients) {
    Distinct(order) && (forall id :: id in order <==> id in clients)
  }

  function ScoreOf(clients: Clients, now: int, id: int): real
    requires IsOpenConnected(clients, id)
  {
    Score(clients[id].value, now)
  }

  predicate NoneConnected(clients: Clients) {
    forall id :: id in clients ==> !IsOpenConnected(clients, id)
  }

  /** An open connected client that no other one outscores. */
  predicate IsBest(clients: Clients, now: int, b: int) {
    IsOpenConnected(clients, b)
    && forall id :: id in clients && IsOpenConnected(clients, id) ==> ScoreOf(clients, now, id) <= ScoreOf(clients, now, b)
  }

  /** Position i holds the first open connected client of the order. */
  predicate IsFirst(clients: Clients, order: seq<int>, i: nat) {
    && i < |order| && IsOpenConnected(clients, order[i])
    && forall k :: 0 <= k < i ==> !IsOpenConnected(clients, order[k])
  }

  /** Position i holds the first best client of the order. */
  predicate Leads(clients: Clients, order: seq<int>, now: int, i: nat) {
    && i < |order| && IsBest(clients, now, order[i])
    && forall k :: 0 <= k < i ==> !IsBest(clients, now, order[k])
  }

  method FirstConnected(clients: Clients, order: seq<int>) returns (r: Option<nat>)
    requires IsOrder(order, clients)
    ensures r.None? ==> NoneConnected(clients)
    ensures r.Some? ==> IsFirst(clients, order, r.value)
  {
    for i := 0 to |order|
      invariant forall k :: 0 <= k < i ==> !IsOpenConnected(clients, order[k])
    {
      if IsOpenConnected(clients, order[i]) {
        return Some(i);
      }
    }
    return None;
  }

  method EveryConnected(clients: Clients, order: seq<int>) returns (ids: seq<int>)
    requires IsOrder(order, clients)
    ensures Distinct(ids) && forall id :: id in ids <==> IsOpenConnected(clients, id)
  {
    ids := [];
    for i := 0 to |order|
      invariant Distinct(ids)
      invariant forall id :: id in ids <==> id in order[..i] && IsOpenConnected(clients, id)
    {
      assert order[i] !in order[..i];
      if IsOpenConnected(clients, order[i]) {
        ids := ids + [order[i]];
      }
    }
    assert order[..|order|] == order;
  }

  /** The loop of the stable policy: -1 stands for "none so far", although -1 is also
      the id of the original client. Of several best clients the first one wins. */
  method MostStable(clients: Clients, order: seq<int>, now: int) returns (best: int, ghost at: nat)
    requires IsOrder(order, clients)
    ensures NoneConnected(clients) ==> best == -1
    ensures !NoneConnected(clients) ==> Leads(clients, order, now, at) && best == order[at]
  {
    best, at := -1, 0;
    var bestScore := -1.0;
    for i := 0 to |order|
      invariant bestScore == -1.0 ==> best == -1 && forall k :: 0 <= k < i ==> !IsOpenConnected(clients, order[k])
      invariant bestScore != -1.0 ==>
        at < i && order[at] == best && IsOpenConnected(clients, best) && bestScore == ScoreOf(clients, now, best)
      invariant forall k :: 0 <= k < i && IsOpenConnected(clients, order[k]) ==> ScoreOf(clients, now, order[k]) <= bestScore
      invariant at <= i
      invariant forall k :: 0 <= k < at && IsOpenConnected(clients, order[k]) ==> ScoreOf(clients, now, order[k]) < bestScore
    {
      if IsOpenConnected(clients, order[i]) {
        var score := CalculateClientScore(clients[order[i]].value, now);
        if score > bestScore {
          bestScore := score;
          best, at := order[i], i;
        }
      }
    }
    assert forall id :: id in clients ==> id in order;
  }

  /** For any iteration orders of the client map. */
  method GetClientsByPolicy(rule: Rule, clients: Clients, order: seq<int>, all: seq<int>, now: int) returns (ids: seq<int>)
    requires IsOrder(order, clients) && IsOrder(all, clients)
    ensures Selected(rule, clients, order, all, now, ids)
  {
    if |clients| == 0 {
      return [];
    }
    AllNonEmpty(clients, all);
    match rule {
      case AnyConnected =>
        var first := FirstConnected(clients, order);
        if first.Some? {
          return [order[first.value]];
        }
      case AllConnected =>
        ids := EveryConnected(clients, order);
        if ids != [] {
          assert ids[0] in ids && IsOpenConnected(clients, ids[0]);
          return;
        }
        assert NoneConnected(clients) by {
          forall id | id in clients
            ensures !IsOpenConnected(clients, id)
          {
            assert id !in ids;
          }
        }
      case PreferStable =>
        var best, at := MostStable(clients, order, now);
        if best >= 0 {
          return [best];
        }
      case _ =>
    }
    return all;
  }

  lemma AllNonEmpty(clients: Clients, all: seq<int>)
    requires IsOrder(all, clients) && |clients| > 0
    ensures all != []
  {
    if all == [] {
      EmptyOrder(clients);
      assert false;
    }
  }

  lemma EmptyOrder(clients: Clients)
    requires IsOrder([], clients)
    ensures |clients| == 0
  {
    var none: seq<int> := [];
    assert forall id :: id in clients.Keys ==> id in none;
    assert clients.Keys == {};
  }

  /** What each policy selects, for the iteration order of its loop; `all` is the list
      of all ids in some order. */
  ghost predicate Selected(rule: Rule, clients: Clients, order: seq<int>, all: seq<int>, now: int, ids: seq<int>) {
    && Distinct(ids) && (forall id :: id in ids ==> id in clients)
    && (|clients| == 0 <==> ids == [])
    && (|clients| > 0 ==>
          match rule
          case AnyConnected =>
            if NoneConnected(clients) then ids == all
            else exists i: nat :: IsFirst(clients, order, i) && ids == [order[i]]
          case AllConnected =>
            if NoneConnected(clients) then ids == all
            else forall id :: id in ids <==> IsOpenConnected(clients, id)
          case PreferStable =>
            if NoneConnected(clients) then ids == all
            else exists i: nat :: Leads(clients, order, now, i) && ids == if order[i] >= 0 then [order[i]] else all
          case _ => ids == all)
  }

  /** The stable policy selects exactly its first best client if and only if that one
      is a sub-client, or the only client there is; a best original client that
      comes first makes it select everybody. */
  lemma StablePolicyExactly(clients: Clients, order: seq<int>, all: seq<int>, now: int, ids: seq<int>, i: nat)
    requires IsOrder(order, clients) && IsOrder(all, clients) && Leads(clients, order, now, i)
    requires Selected(PreferStable, clients, order, all, now, ids)
    ensures ids == [order[i]] <==> order[i] >= 0 || (forall id :: id in clients ==> id == order[i])
    ensures order[i] < 0 ==> ids == all
  {
    assert order[i] in clients && |clients| > 0;
    var j: nat :| Leads(clients, order, now, j) && ids == if order[j] >= 0 then [order[j]] else all;
    assert i == j;
    if forall id :: id in clients ==> id == order[i] {
      assert order[i] in all;
      forall k | 0 <= k < |all|
        ensures all[k] == order[i]
      {
        assert all[k] in all;
      }
      OnlyOne(all, order[i]);
    }
    if all == [order[i]] {
      assert forall id :: id in clients ==> id in all;
    }
  }

  lemma OnlyOne(all: seq<int>, x: int)
    requires Distinct(all) && all != [] && forall i :: 0 <= i < |all| ==> all[i] == x
    ensures all == [x]
  {
    assert all[0] == x == all[|all| - 1];
  }

  predicate Usable(clients: Clients, id: int) {
    && id in clients && clients[id].Some?
    && clients[id].value.closed == false && clients[id].value.conn.Connected?
  }

  /** While some client is connected and open, the policies for connected clients select
      only such, all of them or one; without a policy, everybody is selected. */
  lemma SelectsUsable(rule: Rule, clients: Clients, order: seq<int>, all: seq<int>, now: int, ids: seq<int>, some: int)
    requires IsOrder(order, clients) && IsOrder(all, clients)
    requires Selected(rule, clients, order, all, now, ids) && Usable(clients, some)
    ensures rule.AnyConnected? ==> |ids| == 1 && Usable(clients, ids[0])
    ensures rule.AllConnected? ==> forall id :: id in ids <==> Usable(clients, id)
    ensures rule.PreferStable? ==> (|ids| == 1 && Usable(clients, ids[0])) || (ids == all && exists id :: id < 0 && Usable(clients, id))
    ensures rule.CrossSendNone? || rule.UnknownRule? ==> ids == all
  {
    assert IsOpenConnected(clients, some) && |clients| > 0;
    if rule.PreferStable? {
      var i: nat :| Leads(clients, order, now, i) && ids == if order[i] >= 0 then [order[i]] else all;
      assert Usable(clients, order[i]);
    }
  }

  // ------------------------------------------------------------- send

  predicate Succeeds(clients: Clients, sendOk: int -> bool, id: int) {
    id in clients && clients[id].Some? && sendOk(id)
  }

  /** The sending goroutine and the select on its two one-slot channels. */
  method Send(rule: Rule, clients: Clients, order: seq<int>, all: seq<int>, now: int, sendOk: int -> bool)
    returns (returnsNil: bool, success: bool, fail: bool, ids: seq<int>)
    requires IsOrder(order, clients) && IsOrder(all, clients)
    ensures Selected(rule, clients, order, all, now, ids)
    ensures success <==> exists id :: id in ids && id in clients && clients[id].Some? && sendOk(id)
    ensures success != fail
    ensures returnsNil <==> (exists id :: id in ids && id in clients && clients[id].Some? && sendOk(id)) || |clients| == 0
  {
    success, fail := false, false;
    var sent, errs := 0, 0;
    ids := GetClientsByPolicy(rule, clients, order, all, now);
    for i := 0 to |ids|
      invariant success <==> exists k :: 0 <= k < i && Succeeds(clients, sendOk, ids[k])
      invariant sent >= 0 && (sent > 0 <==> success) && errs >= 0 && sent + errs == i
    {
      if Succeeds(clients, sendOk, ids[i]) {
        success := true;
        sent := sent + 1;
      } else {
        errs := errs + 1;
      }
    }
    if sent == 0 {
      fail := true;
    }
    returnsNil := success || errs == 0;
  }
}
