/** Connection state, closed flag and stability counters of a client. Each event is
    one critical section; a run is any interleaving of them after the first
    connection, since every other goroutine is started by connectToNode. */
module Lifecycle {
  import opened Wrappers

  datatype Conn = Connecting | Connected | Disconnected
  datatype Node = Node(id: string, addr: string, pubKey: string)
  datatype Stats = Stats(connectTime: int, reconnectCount: nat, lastReconnect: int, sendFailureCount: nat)

  datatype Life = Life(conn: Conn, closed: bool, node: Option<Node>, stats: Option<Stats>)

  const UNBORN := Life(Connecting, false, None, None)
  const NO_STATS := Stats(0, 0, 0, 0)

  datatype Event =
    | Connect(node: Node, now: int)   // locked section of connectToNode
    | SetClient(now: int)             // successful setClient reply
    | Reconnect                       // locked section of Reconnect
    | Close
    | SendFailure                     // recorded after a failed write

  predicate SameNode(a: Node, b: Node) {
    a.id == b.id && a.addr == b.addr
  }

  function StatsOrNew(l: Life): Stats {
    if l.stats.Some? then l.stats.value else NO_STATS
  }

  function Step(l: Life, e: Event): Life {
    match e
    case Connect(node, now) =>
      var l' := l.(node := Some(node), conn := Connecting);
      if l.node.None? then l'.(stats := Some(StatsOrNew(l).(connectTime := now)))
      else if !SameNode(l.node.value, node) then l'.(stats := Some(Stats(now, 0, now, 0)))
      else l'
    case SetClient(now) =>
      if l.closed then l
      else if l.stats.None? then l.(conn := Connected, stats := Some(NO_STATS.(connectTime := now)))
      else if l.conn != Connected then
        var s := l.stats.value;
        l.(conn := Connected, stats := Some(s.(reconnectCount := s.reconnectCount + 1, lastReconnect := now)))
      else l
    case Reconnect => l.(conn := Connecting)
    case Close => if l.closed then l else l.(closed := true, conn := Disconnected)
    case SendFailure =>
      var s := StatsOrNew(l);
      l.(stats := Some(s.(sendFailureCount := s.sendFailureCount + 1)))
  }

  /** The state GetAllSubConnStates reports. */
  function Reported(l: Life): Conn {
    if l.closed then Disconnected else l.conn
  }

  class Client {
    var state: Conn
    var isClosed: bool
    var node: Option<Node>
    var stats: Option<Stats>

    function View(): Life
      reads this
    {
      Life(state, isClosed, node, stats)
    }

    constructor ()
      ensures View() == UNBORN
    {
      state, isClosed, node, stats := Connecting, false, None, None;
    }

    method ConnectToNode(newNode: Node, now: int)
      modifies this
      ensures View() == Step(old(View()), Event.Connect(newNode, now))
    {
      var prevNode := node;
      node := Some(newNode);
      state := Connecting;
      if prevNode.Some? && (prevNode.value.id != newNode.id || prevNode.value.addr != newNode.addr) {
        stats := Some(Stats(now, 0, now, 0));
      } else if prevNode.None? {
        if stats.None? {
          stats := Some(NO_STATS);
        }
        stats := Some(stats.value.(connectTime := now));
      }
    }

    method SetClientSucceeded(now: int)
      modifies this
      ensures View() == Step(old(View()), Event.SetClient(now))
    {
      if isClosed {
        return;
      }
      if stats.None? {
        stats := Some(NO_STATS.(connectTime := now));
      } else if state != Connected {
        stats := Some(stats.value.(reconnectCount := stats.value.reconnectCount + 1, lastReconnect := now));
      }
      state := Connected;
    }

    method StartReconnect()
      modifies this
      ensures View() == Step(old(View()), Event.Reconnect)
    {
      state := Connecting;
    }

    method CloseClient()
      modifies this
      ensures View() == Step(old(View()), Event.Close)
    {
      if isClosed {
        return;
      }
      isClosed := true;
      state := Disconnected;
    }

    method RecordSendFailure()
      modifies this
      ensures View() == Step(old(View()), Event.SendFailure)
    {
      if stats.None? {
        stats := Some(NO_STATS);
      }
      stats := Some(stats.value.(sendFailureCount := stats.value.sendFailureCount + 1));
    }
  }

  // ------------------------------------------------------------- all runs

  function After(es: seq<Event>): Life {
    if es == [] then UNBORN else Step(After(es[..|es| - 1]), es[|es| - 1])
  }

  predicate Started(es: seq<Event>) {
    es != [] && es[0].Connect?
  }

  predicate NodeChanged(l: Life, l': Life) {
    l.node.Some? && l'.node.Some? && (l.node.value.id != l'.node.value.id || l.node.value.addr != l'.node.value.addr)
  }

  /** Transitions into Connected, and failed writes, since the node last changed:
      both read off the run, not off the counters. */
  function Arrivals(es: seq<Event>): nat {
    if es == [] then 0
    else
      var init := es[..|es| - 1];
      if NodeChanged(After(init), After(es)) then 0
      else Arrivals(init) + if After(init).conn != Connected && After(es).conn == Connected then 1 else 0
  }

  function FailedWrites(es: seq<Event>): nat {
    if es == [] then 0
    else
      var init := es[..|es| - 1];
      if NodeChanged(After(init), After(es)) then 0
      else FailedWrites(init) + if es[|es| - 1].SendFailure? then 1 else 0
  }

  /** When the current node was first connected to, and when the counters last moved
      because of a connection. */
  function NodeSince(es: seq<Event>): int {
    if es == [] then 0
    else
      var init, last := es[..|es| - 1], es[|es| - 1];
      if last.Connect? && (After(init).node.None? || NodeChanged(After(init), After(es))) then last.now
      else NodeSince(init)
  }

  function LastArrival(es: seq<Event>): int {
    if es == [] then 0
    else
      var init, last := es[..|es| - 1], es[|es| - 1];
      if last.Connect? && NodeChanged(After(init), After(es)) then last.now
      else if last.SetClient? && After(init).conn != Connected && After(es).conn == Connected then last.now
      else LastArrival(init)
  }

  lemma {:induction false} TimesAreExact(es: seq<Event>)
    requires Started(es)
    ensures var l := After(es);
      l.stats.Some? && l.stats.value.connectTime == NodeSince(es) && l.stats.value.lastReconnect == LastArrival(es)
  {
    var init := es[..|es| - 1];
    if |es| == 1 {
      assert init == [];
    } else {
      assert init[0] == es[0];
      TimesAreExact(init);
      CountersAreExact(init);
    }
  }

  /** Over every interleaving the counters equal what happened since the last node
      change, the first connection included, and a closed client is not Connected. */
  lemma {:induction false} CountersAreExact(es: seq<Event>)
    requires Started(es)
    ensures var l := After(es);
      && l.node.Some? && l.stats.Some?
      && l.stats.value.reconnectCount == Arrivals(es)
      && l.stats.value.sendFailureCount == FailedWrites(es)
      && (l.closed ==> l.conn != Connected)
  {
    var init := es[..|es| - 1];
    if |es| == 1 {
      assert init == [];
    } else {
      assert init[0] == es[0];
      CountersAreExact(init);
    }
  }

  lemma {:induction false} ClosedNotConnected(es: seq<Event>)
    ensures After(es).closed ==> After(es).conn != Connected
  {
    if es != [] {
      ClosedNotConnected(es[..|es| - 1]);
    }
  }

  lemma {:induction false} ClosedForGood(es: seq<Event>, k: nat)
    requires k <= |es| && After(es[..k]).closed
    ensures var l := After(es); l.closed && l.conn != Connected && Reported(l) == Disconnected
    decreases |es|
  {
    ClosedNotConnected(es);
    if k == |es| {
      assert es[..k] == es;
    } else {
      assert es[..|es| - 1][..k] == es[..k];
      ClosedForGood(es[..|es| - 1], k);
    }
  }

  predicate HasClose(es: seq<Event>, n: nat) {
    exists i :: 0 <= i < n && i < |es| && es[i].Close?
  }

  /** A client is closed exactly if Close was called, and reported Disconnected exactly
      then or while its state is. */
  lemma {:induction false} ClosedExactly(es: seq<Event>)
    ensures After(es).closed <==> HasClose(es, |es|)
    ensures Reported(After(es)) == if HasClose(es, |es|) then Disconnected else After(es).conn
  {
    if es != [] {
      var k := |es| - 1;
      ClosedExactly(es[..k]);
      assert HasClose(es[..k], k) <==> HasClose(es, k);
      assert HasClose(es, |es|) <==> HasClose(es, k) || es[k].Close?;
    }
  }

  /** Event i sets the connection state: a setClient reply and Close only before any Close. */
  predicate Sets(es: seq<Event>, i: nat) {
    i < |es| && (es[i].Connect? || es[i].Reconnect? || ((es[i].SetClient? || es[i].Close?) && !HasClose(es, i)))
  }

  function StateSetBy(e: Event): Conn {
    if e.SetClient? then Connected else if e.Close? then Disconnected else Connecting
  }

  lemma SetsPrefix(es: seq<Event>, n: nat, i: nat)
    requires i < n <= |es|
    ensures Sets(es[..n], i) == Sets(es, i)
  {
    assert HasClose(es[..n], i) == HasClose(es, i);
  }

  /** Over every run the state is what the last event that sets it says. */
  lemma {:induction false} StateIsLastSet(es: seq<Event>, i: nat)
    requires Sets(es, i) && forall j :: i < j < |es| ==> !Sets(es, j)
    ensures After(es).conn == StateSetBy(es[i])
    decreases |es|
  {
    var k := |es| - 1;
    ClosedExactly(es[..k]);
    assert HasClose(es[..k], k) == HasClose(es, k);
    if i < k {
      SetsPrefix(es, k, i);
      forall j | i < j < k
        ensures !Sets(es[..k], j)
      {
        SetsPrefix(es, k, j);
      }
      StateIsLastSet(es[..k], i);
      assert !Sets(es, k);
    }
  }

  /** The node is the one connected to last. */
  lemma {:induction false} NodeIsLast(es: seq<Event>, i: nat)
    requires i < |es| && es[i].Connect? && forall j :: i < j < |es| ==> !es[j].Connect?
    ensures After(es).node == Some(es[i].node)
    decreases |es|
  {
    if i < |es| - 1 {
      NodeIsLast(es[..|es| - 1], i);
    }
  }

  /** The field itself, after the Close that closed the client: it stays Disconnected
      exactly until the next Reconnect or the end of a connection attempt. */
  lemma {:induction false} ClosedFieldExactly(es: seq<Event>, k: nat)
    requires 0 < k <= |es| && es[k - 1].Close? && !After(es[..k - 1]).closed
    ensures After(es).closed
    ensures After(es).conn == Disconnected <==> forall i :: k <= i < |es| ==> !es[i].Connect? && !es[i].Reconnect?
    decreases |es|
  {
    var init := es[..|es| - 1];
    if k < |es| {
      assert init[..k - 1] == es[..k - 1];
      ClosedFieldExactly(init, k);
      assert forall i :: k <= i < |init| ==> init[i] == es[i];
      assert After(init).conn == Disconnected || After(es).conn != Disconnected;
    }
  }

  /** For example, Reconnect moves a closed client back to Connecting. */
  lemma ClosedFieldIsNotStable()
    ensures After([Connect(Node("a", "b", "c"), 1), Close, Reconnect]).conn == Connecting
  {
    var es := [Connect(Node("a", "b", "c"), 1), Close, Reconnect];
    assert es[..2] == [Connect(Node("a", "b", "c"), 1), Close];
  }

  /** The very first setClient reply is already counted as a reconnection. */
  lemma FirstConnectionIsCounted(node: Node, now: int, later: int)
    ensures var l := After([Connect(node, now), SetClient(later)]);
      l.conn == Connected && l.stats.Some? && l.stats.value.reconnectCount == 1
  {
    var es := [Connect(node, now), SetClient(later)];
    assert es[..1] == [Connect(node, now)];
    CountersAreExact(es);
    CountersAreExact(es[..1]);
  }
}
