// The browser's shared WebSocket (src/lib/ws-client.ts) against the hub's record
// of each connection's subscriptions (src/server/ws/hub.ts).
module LiveSocket {
  import opened Common

  datatype Subscription = Subscription(channel: string, connectionId: Option<string>, arg: Option<string>)

  function TextOf(o: Option<string>): string {
    if o.Some? then o.value else ""
  }

  // Both ends key a subscription this way.
  function SubKey(s: Subscription): string {
    s.channel + "|" + TextOf(s.connectionId) + "|" + TextOf(s.arg)
  }

  datatype Message =
    | SubscribeTo(sub: Subscription)
    | UnsubscribeFrom(sub: Subscription)
    | RedisCommand(connectionId: string, argv: seq<string>, id: string)

  datatype Phase = Connecting | Open | Closing | Closed

  // One browser socket: its ready state, whether its `ready` message has been
  // handled, and the keys the hub holds for it.
  datatype Conn = Conn(phase: Phase, greeted: bool, hub: set<string>)

  datatype Net = Net(
    socket: Option<nat>,
    conns: seq<Conn>,
    subs: map<string, Subscription>,
    refCounts: map<string, nat>,
    queue: seq<Message>,
    backoffMs: nat,
    connecting: bool)

  const FIRST_BACKOFF: nat := 500
  const MAX_BACKOFF: nat := 15000

  const IDLE := Net(None, [], map[], map[], [], FIRST_BACKOFF, false)

  // ----- the specification ------------------------------------------------------

  predicate WellLinked(n: Net) {
    n.socket.Some? ==> n.socket.value < |n.conns|
  }

  predicate InPhase(n: Net, phase: Phase)
    requires WellLinked(n)
  {
    n.socket.Some? && n.conns[n.socket.value].phase == phase
  }

  // The hub's reaction to one message; commands do not touch subscriptions.
  function Deliver(hub: set<string>, m: Message): set<string> {
    match m
    case SubscribeTo(sub) => hub + {SubKey(sub)}
    case UnsubscribeFrom(sub) => hub - {SubKey(sub)}
    case RedisCommand(_, _, _) => hub
  }

  function DeliverAll(hub: set<string>, ms: seq<Message>): set<string> {
    if ms == [] then hub else Deliver(DeliverAll(hub, ms[..|ms| - 1]), ms[|ms| - 1])
  }

  function Ensured(n: Net): (r: Net)
    requires WellLinked(n)
    ensures WellLinked(r)
  {
    if InPhase(n, Open) || InPhase(n, Connecting) || n.connecting then n
    else n.(socket := Some(|n.conns|), conns := n.conns + [Conn(Connecting, false, {})], connecting := true)
  }

  function Sent(n: Net, m: Message): (r: Net)
    requires WellLinked(n)
    ensures WellLinked(r)
  {
    var e := Ensured(n);
    if InPhase(e, Open) then
      var c := e.conns[e.socket.value];
      e.(conns := e.conns[e.socket.value := c.(hub := Deliver(c.hub, m))])
    else e.(queue := e.queue + [m])
  }

  function Subscribed(n: Net, sub: Subscription): (r: Net)
    requires WellLinked(n)
    ensures WellLinked(r)
  {
    var k := SubKey(sub);
    var count := (if k in n.refCounts then n.refCounts[k] else 0) + 1;
    var counted := n.(refCounts := n.refCounts[k := count]);
    if count == 1 then Sent(counted.(subs := n.subs[k := sub]), SubscribeTo(sub)) else counted
  }

  // What the closure returned by `subscribe` does.
  function Released(n: Net, sub: Subscription): (r: Net)
    requires WellLinked(n)
    ensures WellLinked(r)
  {
    var k := SubKey(sub);
    var count := if k in n.refCounts then n.refCounts[k] else 1;
    if count <= 1 then Sent(n.(refCounts := n.refCounts - {k}, subs := n.subs - {k}), UnsubscribeFrom(sub))
    else n.(refCounts := n.refCounts[k := count - 1])
  }

  function Opened(n: Net, i: nat): Net
    requires i < |n.conns|
  {
    n.(connecting := false, backoffMs := FIRST_BACKOFF, conns := n.conns[i := n.conns[i].(phase := Open)])
  }

  // Re-subscribe everything, then flush the queue.
  function Greeted(n: Net, i: nat): Net
    requires i < |n.conns|
  {
    n.(queue := [],
       conns := n.conns[i := n.conns[i].(greeted := true, hub := DeliverAll(n.conns[i].hub + n.subs.Keys, n.queue))])
  }

  function CloseBegun(n: Net, i: nat): Net
    requires i < |n.conns|
  {
    n.(conns := n.conns[i := n.conns[i].(phase := Closing)])
  }

  function Dropped(n: Net, i: nat): Net
    requires i < |n.conns|
  {
    n.(connecting := false, socket := None,
       backoffMs := if n.backoffMs * 2 < MAX_BACKOFF then n.backoffMs * 2 else MAX_BACKOFF,
       conns := n.conns[i := Conn(Closed, n.conns[i].greeted, {})])
  }

  // ----- the client ----------------------------------------------------------------

  class WsClient {
    var socket: Option<nat>
    var conns: seq<Conn>
    var subs: map<string, Subscription>
    var refCounts: map<string, nat>
    var queue: seq<Message>
    var backoffMs: nat
    var connecting: bool

    function State(): Net
      reads this
    {
      Net(socket, conns, subs, refCounts, queue, backoffMs, connecting)
    }

    constructor ()
      ensures State() == IDLE
    {
      socket, conns, subs, refCounts, queue := None, [], map[], map[], [];
      backoffMs, connecting := FIRST_BACKOFF, false;
    }

    method Ensure()
      requires WellLinked(State())
      modifies this
      ensures State() == Ensured(old(State()))
    {
      if socket.Some? && (conns[socket.value].phase == Open || conns[socket.value].phase == Connecting) {
        return;
      }
      if connecting {
        return;
      }
      connecting := true;
      conns := conns + [Conn(Connecting, false, {})];
      socket := Some(|conns| - 1);
    }

    method Send(m: Message)
      requires WellLinked(State())
      modifies this
      ensures State() == Sent(old(State()), m)
    {
      Ensure();
      if socket.Some? && conns[socket.value].phase == Open {
        Transmit(socket.value, m);
      } else {
        queue := queue + [m];
      }
    }

    // `socket.send`, with the hub at the other end.
    method Transmit(i: nat, m: Message)
      requires i < |conns|
      modifies this`conns
      ensures conns == old(conns)[i := old(conns)[i].(hub := Deliver(old(conns)[i].hub, m))]
    {
      conns := conns[i := conns[i].(hub := Deliver(conns[i].hub, m))];
    }

    method Subscribe(sub: Subscription)
      requires WellLinked(State())
      modifies this
      ensures State() == Subscribed(old(State()), sub)
    {
      var k := SubKey(sub);
      var count := (if k in refCounts then refCounts[k] else 0) + 1;
      refCounts := refCounts[k := count];
      if count == 1 {
        subs := subs[k := sub];
        Send(SubscribeTo(sub));
      }
    }

    method Release(sub: Subscription)
      requires WellLinked(State())
      modifies this
      ensures State() == Released(old(State()), sub)
    {
      var k := SubKey(sub);
      var next := (if k in refCounts then refCounts[k] as int else 1) - 1;
      if next <= 0 {
        refCounts := refCounts - {k};
        subs := subs - {k};
        Send(UnsubscribeFrom(sub));
      } else {
        refCounts := refCounts[k := next];
      }
    }

    method OnOpen(i: nat)
      requires i < |conns|
      modifies this
      ensures State() == Opened(old(State()), i)
    {
      conns := conns[i := conns[i].(phase := Open)];
      connecting := false;
      backoffMs := FIRST_BACKOFF;
    }

    method OnReady(i: nat)
      requires i < |conns| && forall k :: k in subs ==> SubKey(subs[k]) == k
      modifies this
      ensures State() == Greeted(old(State()), i)
    {
      ghost var before := conns[i].hub;
      conns := conns[i := conns[i].(greeted := true)];
      ghost var rest := conns;
      var todo := subs.Keys;
      assert before + (subs.Keys - todo) == before;
      while todo != {}
        invariant todo <= subs.Keys
        invariant conns == rest[i := rest[i].(hub := before + (subs.Keys - todo))]
        invariant unchanged(`socket, `subs, `refCounts, `queue, `backoffMs, `connecting)
        decreases todo
      {
        var k :| k in todo;
        Transmit(i, SubscribeTo(subs[k]));
        assert before + (subs.Keys - todo) + {k} == before + (subs.Keys - (todo - {k}));
        todo := todo - {k};
      }
      assert before + (subs.Keys - {}) == before + subs.Keys;
      var flushed := queue;
      queue := [];
      for j := 0 to |flushed|
        invariant conns == rest[i := rest[i].(hub := DeliverAll(before + subs.Keys, flushed[..j]))]
        invariant queue == [] && unchanged(`socket, `subs, `refCounts, `backoffMs, `connecting)
      {
        Transmit(i, flushed[j]);
        assert flushed[..j + 1][..j] == flushed[..j];
      }
      assert flushed[..|flushed|] == flushed;
    }

    method OnClose(i: nat)
      requires i < |conns|
      modifies this
      ensures State() == Dropped(old(State()), i)
    {
      conns := conns[i := Conn(Closed, conns[i].greeted, {})];
      connecting := false;
      socket := None;
      backoffMs := if backoffMs * 2 < MAX_BACKOFF then backoffMs * 2 else MAX_BACKOFF;
    }
  }
}
