// Safety of the live socket over whole runs: whatever opens, greets and drops in
// whatever order, the current socket, once greeted, carries exactly the subscriptions
// in use; and so does every other open one, until the client leaves one behind.
module LiveSocketRuns {
  import opened Common
  import opened LiveSocket

  datatype Step =
    | SubscribeStep(sub: Subscription)
    | ReleaseStep(sub: Subscription)
    | CommandStep(connectionId: string, argv: seq<string>, id: string)
    | TimerStep
    | OpenStep(conn: nat)
    | ReadyStep(conn: nat)
    | ClosingStep(conn: nat)
    | CloseStep(conn: nat)

  // The client, its sockets and the hub, together with the release closures that
  // have been handed out and not yet called.
  datatype World = World(net: Net, handles: multiset<string>)

  const START := World(IDLE, multiset{})

  function Apply(w: World, step: Step): World
    requires WellLinked(w.net) && Possible(w, step)
  {
    match step
    case SubscribeStep(sub) => World(Subscribed(w.net, sub), w.handles + multiset{SubKey(sub)})
    case ReleaseStep(sub) => World(Released(w.net, sub), w.handles - multiset{SubKey(sub)})
    case CommandStep(connectionId, argv, id) => w.(net := Sent(w.net, RedisCommand(connectionId, argv, id)))
    case TimerStep => w.(net := Ensured(w.net))
    case OpenStep(i) => w.(net := Opened(w.net, i))
    case ReadyStep(i) => w.(net := Greeted(w.net, i))
    case ClosingStep(i) => w.(net := CloseBegun(w.net, i))
    case CloseStep(i) => w.(net := Dropped(w.net, i))
  }

  // What browsers do: a socket opens once, receives only while open, and closes
  // once. Each release closure is called once.
  predicate Possible(w: World, step: Step) {
    match step
    case SubscribeStep(_) => true
    case ReleaseStep(sub) => SubKey(sub) in w.handles
    case CommandStep(_, _, _) => true
    case TimerStep => true
    case OpenStep(i) => i < |w.net.conns| && w.net.conns[i].phase == Connecting
    case ReadyStep(i) => i < |w.net.conns| && w.net.conns[i].phase == Open
    case ClosingStep(i) => i < |w.net.conns| && w.net.conns[i].phase in {Connecting, Open}
    case CloseStep(i) => i < |w.net.conns| && w.net.conns[i].phase != Closed
  }

  // ----- the queue, key by key -----------------------------------------------------

  predicate Names(m: Message, k: string) {
    !m.RedisCommand? && SubKey(m.sub) == k
  }

  // What the last message about `k` in the queue asks for.
  function LastWord(queue: seq<Message>, k: string): Option<bool> {
    if queue == [] then None
    else
      var m := queue[|queue| - 1];
      if Names(m, k) then Some(m.SubscribeTo?) else LastWord(queue[..|queue| - 1], k)
  }

  ghost predicate QueueAgrees(queue: seq<Message>, keys: set<string>) {
    forall k :: LastWord(queue, k).Some? ==> (LastWord(queue, k).value <==> k in keys)
  }

  lemma {:induction false} DeliverAllByKey(hub: set<string>, ms: seq<Message>, k: string)
    ensures k in DeliverAll(hub, ms) <==> (var last := LastWord(ms, k); if last.Some? then last.value else k in hub)
  {
    if ms != [] {
      DeliverAllByKey(hub, ms[..|ms| - 1], k);
    }
  }

  lemma LastWordPush(queue: seq<Message>, m: Message, k: string)
    ensures LastWord(queue + [m], k) == if Names(m, k) then Some(m.SubscribeTo?) else LastWord(queue, k)
  {
    var q := queue + [m];
    assert q[..|q| - 1] == queue && q[|q| - 1] == m;
  }

  // ----- the invariant ------------------------------------------------------------

  // Counts are the outstanding handles, and `subs` has the same keys.
  ghost predicate Counted(subs: map<string, Subscription>, refCounts: map<string, nat>, handles: multiset<string>) {
    && refCounts.Keys == subs.Keys
    && (forall k :: k in refCounts ==> refCounts[k] == handles[k] && handles[k] > 0)
    && (forall k :: k in handles ==> k in refCounts)
    && (forall k :: k in subs ==> SubKey(subs[k]) == k)
  }

  ghost predicate Linked(n: Net, keys: set<string>) {
    && WellLinked(n)
    && (forall i :: 0 <= i < |n.conns| && n.conns[i].phase == Connecting ==>
      !n.conns[i].greeted && n.conns[i].hub == {})
    && (InPhase(n, Open) ==> n.conns[n.socket.value].hub <= keys)
    && !InPhase(n, Closed)
  }

  // The promise: until it drops, a greeted current socket has exactly the
  // subscriptions in use and nothing left to say.
  ghost predicate InStep(n: Net, keys: set<string>)
    requires WellLinked(n)
  {
    InPhase(n, Open) && n.conns[n.socket.value].greeted ==>
      n.conns[n.socket.value].hub == keys && n.queue == []
  }

  predicate Paced(n: Net) {
    FIRST_BACKOFF <= n.backoffMs <= MAX_BACKOFF
  }

  ghost predicate Inv(w: World) {
    && Counted(w.net.subs, w.net.refCounts, w.handles)
    && Linked(w.net, w.net.subs.Keys)
    && QueueAgrees(w.net.queue, w.net.subs.Keys)
    && InStep(w.net, w.net.subs.Keys)
    && Paced(w.net)
  }

  // The first subscribe of a key, or its last release: the steps that say something.
  predicate Speaks(w: World, step: Step) {
    || (step.SubscribeStep? && SubKey(step.sub) !in w.net.refCounts)
    || (step.ReleaseStep? && SubKey(step.sub) in w.net.refCounts && w.net.refCounts[SubKey(step.sub)] == 1)
  }

  // Does this step send about a key straight over a socket that has opened but has
  // not been greeted, while an older message about it is still queued?
  predicate Overtakes(w: World, step: Step)
    requires WellLinked(w.net)
  {
    && Speaks(w, step)
    && InPhase(w.net, Open) && !w.net.conns[w.net.socket.value].greeted
    && LastWord(w.net.queue, SubKey(step.sub)).Some?
  }

  // ----- sending -------------------------------------------------------------------

  lemma EnsuringKeeps(w: World)
    requires Inv(w)
    ensures Inv(w.(net := Ensured(w.net)))
  {
  }

  lemma QueueingKeepsAgreement(queue: seq<Message>, keys: set<string>, m: Message)
    requires QueueAgrees(queue, keys)
    ensures QueueAgrees(queue + [m], Deliver(keys, m))
  {
    forall k
      ensures LastWord(queue + [m], k) == if Names(m, k) then Some(m.SubscribeTo?) else LastWord(queue, k)
    {
      LastWordPush(queue, m, k);
    }
  }

  // Sending, when `subs` already reflects the message: whether it goes straight out
  // or waits, the hub or the queue agrees again.
  lemma SendingKeeps(n: Net, m: Message, keys: set<string>)
    requires Linked(n, keys) && QueueAgrees(n.queue, keys) && InStep(n, keys)
    requires n.subs.Keys == Deliver(keys, m)
    requires InPhase(n, Open) && !n.conns[n.socket.value].greeted && !m.RedisCommand? ==>
      LastWord(n.queue, SubKey(m.sub)).None?
    ensures Linked(Sent(n, m), n.subs.Keys) && QueueAgrees(Sent(n, m).queue, n.subs.Keys) &&
      InStep(Sent(n, m), n.subs.Keys)
  {
    var e := Ensured(n);
    assert e.queue == n.queue;
    if InPhase(e, Open) {
      assert e == n;
      var c := n.conns[n.socket.value];
      assert Deliver(c.hub, m) <= Deliver(keys, m);
    } else {
      QueueingKeepsAgreement(n.queue, keys, m);
    }
  }

  lemma CommandsKeep(w: World, m: Message)
    requires Inv(w) && m.RedisCommand?
    ensures Inv(w.(net := Sent(w.net, m)))
  {
    SendingKeeps(w.net, m, w.net.subs.Keys);
  }

  // ----- greeting --------------------------------------------------------------------

  // Greeting brings the hub into agreement exactly when the queue was.
  lemma GreetingIsExact(n: Net, i: nat)
    requires i < |n.conns| && n.conns[i].hub <= n.subs.Keys
    ensures Greeted(n, i).conns[i].hub == n.subs.Keys <==> QueueAgrees(n.queue, n.subs.Keys)
  {
    var hub := n.conns[i].hub + n.subs.Keys;
    forall k
      ensures k in DeliverAll(hub, n.queue) <==>
        (var last := LastWord(n.queue, k); if last.Some? then last.value else k in n.subs)
    {
      DeliverAllByKey(hub, n.queue, k);
    }
  }

  lemma GreetingKeeps(w: World, i: nat)
    requires Inv(w) && i < |w.net.conns| && w.net.conns[i].phase == Open
    ensures Inv(w.(net := Greeted(w.net, i)))
  {
    if w.net.socket == Some(i) {
      GreetingIsExact(w.net, i);
    }
  }

  // ----- one step ---------------------------------------------------------------------

  lemma CountedUp(subs: map<string, Subscription>, refCounts: map<string, nat>, handles: multiset<string>,
                  sub: Subscription)
    requires Counted(subs, refCounts, handles)
    ensures var k := SubKey(sub);
      Counted(if k in refCounts then subs else subs[k := sub],
              refCounts[k := (if k in refCounts then refCounts[k] else 0) + 1], handles + multiset{k})
  {
    var k := SubKey(sub);
    if k !in refCounts { assert handles[k] == 0; }
  }

  lemma CountedDown(subs: map<string, Subscription>, refCounts: map<string, nat>, handles: multiset<string>, k: string)
    requires Counted(subs, refCounts, handles) && k in handles
    ensures if refCounts[k] == 1 then Counted(subs - {k}, refCounts - {k}, handles - multiset{k})
      else Counted(subs, refCounts[k := refCounts[k] - 1], handles - multiset{k})
  {
  }

  lemma SendingLeavesCounts(n: Net, m: Message)
    requires WellLinked(n)
    ensures Sent(n, m).subs == n.subs && Sent(n, m).refCounts == n.refCounts && Sent(n, m).backoffMs == n.backoffMs
  {
  }

  lemma FirstSubscribeKeeps(w: World, sub: Subscription)
    requires Inv(w) && !Overtakes(w, SubscribeStep(sub)) && SubKey(sub) !in w.net.refCounts
    ensures Inv(Apply(w, SubscribeStep(sub)))
  {
    var k := SubKey(sub);
    CountedUp(w.net.subs, w.net.refCounts, w.handles, sub);
    var n := w.net.(refCounts := w.net.refCounts[k := 1], subs := w.net.subs[k := sub]);
    assert n.subs.Keys == w.net.subs.Keys + {k};
    assert Subscribed(w.net, sub) == Sent(n, SubscribeTo(sub));
    SendingKeeps(n, SubscribeTo(sub), w.net.subs.Keys);
    SendingLeavesCounts(n, SubscribeTo(sub));
  }

  lemma SubscribingKeeps(w: World, sub: Subscription)
    requires Inv(w) && !Overtakes(w, SubscribeStep(sub))
    ensures Inv(Apply(w, SubscribeStep(sub)))
  {
    var k := SubKey(sub);
    if k !in w.net.refCounts {
      FirstSubscribeKeeps(w, sub);
    } else {
      CountedUp(w.net.subs, w.net.refCounts, w.handles, sub);
      assert Subscribed(w.net, sub) == w.net.(refCounts := w.net.refCounts[k := w.net.refCounts[k] + 1]);
    }
  }

  lemma ReleasingKeeps(w: World, sub: Subscription)
    requires Inv(w) && SubKey(sub) in w.handles && !Overtakes(w, ReleaseStep(sub))
    ensures Inv(Apply(w, ReleaseStep(sub)))
  {
    var k := SubKey(sub);
    CountedDown(w.net.subs, w.net.refCounts, w.handles, k);
    if w.net.refCounts[k] == 1 {
      var n := w.net.(refCounts := w.net.refCounts - {k}, subs := w.net.subs - {k});
      assert n.subs.Keys == w.net.subs.Keys - {k};
      assert Released(w.net, sub) == Sent(n, UnsubscribeFrom(sub));
      SendingKeeps(n, UnsubscribeFrom(sub), w.net.subs.Keys);
      SendingLeavesCounts(n, UnsubscribeFrom(sub));
    } else {
      assert Released(w.net, sub) == w.net.(refCounts := w.net.refCounts[k := w.net.refCounts[k] - 1]);
    }
  }

  // The queued word about the key is then out of date.
  lemma OvertakingBreaks(w: World, step: Step)
    requires Inv(w) && Possible(w, step) && Overtakes(w, step)
    ensures !QueueAgrees(Apply(w, step).net.queue, Apply(w, step).net.subs.Keys)
  {
    var k := SubKey(step.sub);
    assert LastWord(w.net.queue, k).value <==> k in w.net.subs.Keys;
    assert Apply(w, step).net.queue == w.net.queue;
    assert k in Apply(w, step).net.subs.Keys <==> k !in w.net.subs.Keys;
  }

  lemma StepKeepsInv(w: World, step: Step)
    requires Inv(w) && Possible(w, step)
    ensures Inv(Apply(w, step)) <==> !Overtakes(w, step)
  {
    if Overtakes(w, step) {
      OvertakingBreaks(w, step);
    } else {
      CalmStepKeepsInv(w, step);
    }
  }

  lemma CalmStepKeepsInv(w: World, step: Step)
    requires Inv(w) && Possible(w, step) && !Overtakes(w, step)
    ensures Inv(Apply(w, step))
  {
    match step
    case SubscribeStep(sub) => SubscribingKeeps(w, sub);
    case ReleaseStep(sub) => ReleasingKeeps(w, sub);
    case CommandStep(connectionId, argv, id) => CommandsKeep(w, RedisCommand(connectionId, argv, id));
    case TimerStep => EnsuringKeeps(w);
    case OpenStep(i) =>
    case ReadyStep(i) => GreetingKeeps(w, i);
    case ClosingStep(i) =>
    case CloseStep(i) =>
  }

  // ----- whole runs -----------------------------------------------------------------------

  ghost predicate CalmRun(w: World, steps: seq<Step>)
    requires WellLinked(w.net)
    decreases |steps|
  {
    steps != [] ==>
      Possible(w, steps[0]) && !Overtakes(w, steps[0]) &&
      WellLinked(Apply(w, steps[0]).net) && CalmRun(Apply(w, steps[0]), steps[1..])
  }

  ghost function Final(w: World, steps: seq<Step>): World
    requires WellLinked(w.net) && CalmRun(w, steps)
    decreases |steps|
  {
    if steps == [] then w else Final(Apply(w, steps[0]), steps[1..])
  }

  lemma {:induction false} RunKeepsInv(w: World, steps: seq<Step>)
    requires WellLinked(w.net) && CalmRun(w, steps) && Inv(w)
    ensures Inv(Final(w, steps))
    decreases |steps|
  {
    if steps != [] {
      StepKeepsInv(w, steps[0]);
      RunKeepsInv(Apply(w, steps[0]), steps[1..]);
    }
  }

  // Every run: counts are the outstanding handles, and the current socket, when open
  // and greeted, is subscribed at the hub to exactly the keys in use.
  lemma EveryRunStaysInStep(steps: seq<Step>)
    requires CalmRun(START, steps)
    ensures var w := Final(START, steps);
      && (forall k :: k in w.net.refCounts <==> k in w.net.subs)
      && (forall k :: (if k in w.net.refCounts then w.net.refCounts[k] else 0) == w.handles[k])
      && WellLinked(w.net)
      && (InPhase(w.net, Open) && w.net.conns[w.net.socket.value].greeted ==>
            w.net.conns[w.net.socket.value].hub == w.net.subs.Keys)
      && FIRST_BACKOFF <= w.net.backoffMs <= MAX_BACKOFF
  {
    RunKeepsInv(START, steps);
    var w := Final(START, steps);
    forall k
      ensures (if k in w.net.refCounts then w.net.refCounts[k] else 0) == w.handles[k]
    {
    }
  }

  // Without the proviso a queued subscribe outlives its release: subscribe while
  // offline, release once the socket has opened, then be greeted.
  function Pending(sub: Subscription, conn: Conn, held: bool): Net {
    Net(Some(0), [conn],
        if held then map[SubKey(sub) := sub] else map[], if held then map[SubKey(sub) := 1] else map[],
        [SubscribeTo(sub)], FIRST_BACKOFF, conn.phase == Connecting)
  }

  lemma OfflineSubscribe(sub: Subscription)
    ensures Opened(Subscribed(IDLE, sub), 0) == Pending(sub, Conn(Open, false, {}), true)
  {
    var k := SubKey(sub);
    var counted := IDLE.(refCounts := map[k := 1], subs := map[k := sub]);
    assert IDLE.refCounts[k := 1] == map[k := 1] && IDLE.subs[k := sub] == map[k := sub];
    assert Ensured(counted).conns == [Conn(Connecting, false, {})];
    assert Ensured(counted).queue + [SubscribeTo(sub)] == [SubscribeTo(sub)];
    assert Subscribed(IDLE, sub) == Pending(sub, Conn(Connecting, false, {}), true);
    assert [Conn(Connecting, false, {})][0 := Conn(Open, false, {})] == [Conn(Open, false, {})];
  }

  lemma DirectRelease(sub: Subscription)
    ensures Released(Pending(sub, Conn(Open, false, {}), true), sub) == Pending(sub, Conn(Open, false, {}), false)
  {
    var k := SubKey(sub);
    var n := Pending(sub, Conn(Open, false, {}), true);
    assert n.refCounts - {k} == map[] && n.subs - {k} == map[];
    assert {} - {k} == {};
    assert n.conns[0 := Conn(Open, false, {})] == n.conns;
  }

  lemma StaleGreeting(sub: Subscription)
    ensures var done := Greeted(Pending(sub, Conn(Open, false, {}), false), 0);
      done.subs == map[] && done.conns[0].hub == {SubKey(sub)}
  {
    var released := Pending(sub, Conn(Open, false, {}), false);
    var hub := released.conns[0].hub + released.subs.Keys;
    assert hub == {};
    assert released.queue[..0] == [];
    assert DeliverAll(hub, released.queue) == Deliver(DeliverAll(hub, []), SubscribeTo(sub));
  }

  lemma ReleaseOvertakes(sub: Subscription)
    ensures Overtakes(World(Pending(sub, Conn(Open, false, {}), true), multiset{SubKey(sub)}), ReleaseStep(sub))
  {
    assert Names([SubscribeTo(sub)][0], SubKey(sub));
  }

  lemma OvertakingLeavesAStaleSubscription(sub: Subscription)
    ensures var live := Opened(Subscribed(IDLE, sub), 0);
      && Overtakes(World(live, multiset{SubKey(sub)}), ReleaseStep(sub))
      && Greeted(Released(live, sub), 0).subs == map[]
      && Greeted(Released(live, sub), 0).conns[0].hub == {SubKey(sub)}
  {
    OfflineSubscribe(sub);
    ReleaseOvertakes(sub);
    DirectRelease(sub);
    StaleGreeting(sub);
  }

  // ----- sockets left behind -----------------------------------------------------------

  // Nothing is open or opening but the current socket.
  ghost predicate OneLive(n: Net) {
    forall i :: 0 <= i < |n.conns| && n.conns[i].phase in {Connecting, Open} ==> n.socket == Some(i)
  }

  // Does this step leave a live socket behind? Whichever socket closes, the client
  // forgets the current one.
  predicate Orphans(w: World, step: Step)
    requires WellLinked(w.net)
  {
    && step.CloseStep? && w.net.socket != Some(step.conn)
    && (InPhase(w.net, Connecting) || InPhase(w.net, Open))
  }

  lemma SendingKeepsOneLive(n: Net, m: Message)
    requires WellLinked(n) && OneLive(n)
    ensures OneLive(Sent(n, m))
  {
    assert OneLive(Ensured(n));
  }

  lemma ClosingKeepsOneLiveIff(w: World, i: nat)
    requires WellLinked(w.net) && Possible(w, CloseStep(i)) && OneLive(w.net)
    ensures OneLive(Dropped(w.net, i)) <==> !Orphans(w, CloseStep(i))
  {
    if Orphans(w, CloseStep(i)) {
      var current := w.net.socket.value;
      assert Dropped(w.net, i).conns[current] == w.net.conns[current];
    }
  }

  lemma StepKeepsOneLive(w: World, step: Step)
    requires WellLinked(w.net) && Possible(w, step) && OneLive(w.net)
    ensures OneLive(Apply(w, step).net) <==> !Orphans(w, step)
  {
    match step
    case SubscribeStep(sub) =>
      var k := SubKey(sub);
      SendingKeepsOneLive(w.net.(refCounts := w.net.refCounts[k := 1], subs := w.net.subs[k := sub]), SubscribeTo(sub));
    case ReleaseStep(sub) =>
      var k := SubKey(sub);
      SendingKeepsOneLive(w.net.(refCounts := w.net.refCounts - {k}, subs := w.net.subs - {k}), UnsubscribeFrom(sub));
    case CommandStep(connectionId, argv, id) => SendingKeepsOneLive(w.net, RedisCommand(connectionId, argv, id));
    case CloseStep(i) => ClosingKeepsOneLiveIff(w, i);
    case _ =>
  }

  // Every socket that is open and greeted, current or not, has the keys in use.
  ghost predicate AllInTouch(n: Net) {
    forall i :: 0 <= i < |n.conns| && n.conns[i].phase == Open && n.conns[i].greeted ==> n.conns[i].hub == n.subs.Keys
  }

  ghost predicate AnotherListens(n: Net) {
    exists i :: 0 <= i < |n.conns| && n.conns[i].phase == Open && n.conns[i].greeted && n.socket != Some(i)
  }

  ghost predicate HoldsUnusedKey(n: Net, i: nat)
    requires i < |n.conns|
  {
    exists k :: k in n.conns[i].hub && k !in n.subs && LastWord(n.queue, k).None?
  }

  // A step that says something while a greeted socket other than the current one is
  // open, or the greeting of a socket that holds a key no longer in use.
  ghost predicate LosesTouch(w: World, step: Step)
    requires Possible(w, step)
  {
    (Speaks(w, step) && AnotherListens(w.net)) || (step.ReadyStep? && HoldsUnusedKey(w.net, step.conn))
  }

  // From `n` to `r` only the current socket's subscriptions change, and sockets may
  // have been started.
  ghost predicate OthersStay(n: Net, r: Net) {
    && |n.conns| <= |r.conns|
    && (forall i :: 0 <= i < |n.conns| ==> r.conns[i].(hub := {}) == n.conns[i].(hub := {}))
    && (forall i :: 0 <= i < |n.conns| && n.socket != Some(i) ==> r.conns[i] == n.conns[i])
    && (forall i :: |n.conns| <= i < |r.conns| ==> r.conns[i].phase == Connecting)
  }

  lemma SendingTouchesCurrentOnly(n: Net, m: Message)
    requires WellLinked(n)
    ensures OthersStay(n, Sent(n, m)) && (InPhase(n, Open) ==> Sent(n, m).socket == n.socket)
  {
    assert OthersStay(n, Ensured(n));
  }

  lemma SpeakingChangesKeys(w: World, step: Step)
    requires Inv(w) && Possible(w, step) && (step.SubscribeStep? || step.ReleaseStep?)
    ensures Speaks(w, step) <==> Apply(w, step).net.subs.Keys != w.net.subs.Keys
    ensures OthersStay(w.net, Apply(w, step).net)
    ensures if Speaks(w, step) then InPhase(w.net, Open) ==> Apply(w, step).net.socket == w.net.socket
      else Apply(w, step).net.conns == w.net.conns
  {
    var k := SubKey(step.sub);
    if Speaks(w, step) {
      assert k in w.net.subs.Keys <==> step.ReleaseStep?;
      assert k in Apply(w, step).net.subs.Keys <==> step.SubscribeStep?;
      if step.SubscribeStep? {
        SendingTouchesCurrentOnly(w.net.(refCounts := w.net.refCounts[k := 1], subs := w.net.subs[k := step.sub]),
          SubscribeTo(step.sub));
      } else {
        SendingTouchesCurrentOnly(w.net.(refCounts := w.net.refCounts - {k}, subs := w.net.subs - {k}),
          UnsubscribeFrom(step.sub));
      }
    }
  }

  lemma SpeakingLosesTouchIff(w: World, step: Step)
    requires Inv(w) && Possible(w, step) && !Overtakes(w, step) && AllInTouch(w.net)
    requires step.SubscribeStep? || step.ReleaseStep?
    ensures AllInTouch(Apply(w, step).net) <==> !LosesTouch(w, step)
  {
    var n := Apply(w, step).net;
    SpeakingChangesKeys(w, step);
    CalmStepKeepsInv(w, step);
    if LosesTouch(w, step) {
      var i :| 0 <= i < |w.net.conns| && w.net.conns[i].phase == Open && w.net.conns[i].greeted &&
        w.net.socket != Some(i);
      assert n.conns[i] == w.net.conns[i];
    } else {
      forall i | 0 <= i < |n.conns| && n.conns[i].phase == Open && n.conns[i].greeted
        ensures n.conns[i].hub == n.subs.Keys
      {
        assert n.conns[i].(hub := {}) == w.net.conns[i].(hub := {});
        if Speaks(w, step) {
          assert w.net.socket == Some(i);
          assert InPhase(n, Open);
        }
      }
    }
  }

  lemma GreetingLosesTouchIff(w: World, i: nat)
    requires Inv(w) && Possible(w, ReadyStep(i)) && AllInTouch(w.net)
    ensures AllInTouch(Apply(w, ReadyStep(i)).net) <==> !LosesTouch(w, ReadyStep(i))
  {
    var n, hub := w.net, w.net.conns[i].hub + w.net.subs.Keys;
    var r := Greeted(n, i);
    forall k
      ensures k in r.conns[i].hub <==>
        (var last := LastWord(n.queue, k); if last.Some? then last.value else k in hub)
    {
      DeliverAllByKey(hub, n.queue, k);
    }
    if k :| k in n.conns[i].hub && k !in n.subs && LastWord(n.queue, k).None? {
      assert k in r.conns[i].hub;
    } else {
      assert r.conns[i].hub == n.subs.Keys;
    }
  }

  // While no step overtakes, this is exactly when some open socket falls out of touch.
  lemma StepLosesTouchIff(w: World, step: Step)
    requires Inv(w) && Possible(w, step) && !Overtakes(w, step) && AllInTouch(w.net)
    ensures AllInTouch(Apply(w, step).net) <==> !LosesTouch(w, step)
  {
    match step
    case SubscribeStep(_) => SpeakingLosesTouchIff(w, step);
    case ReleaseStep(_) => SpeakingLosesTouchIff(w, step);
    case ReadyStep(i) => GreetingLosesTouchIff(w, i);
    case CommandStep(connectionId, argv, id) => CommandKeepsTouch(w.net, RedisCommand(connectionId, argv, id));
    case TimerStep => TimerKeepsTouch(w.net);
    case OpenStep(i) => PhaseKeepsTouch(w.net, Opened(w.net, i), i);
    case ClosingStep(i) => PhaseKeepsTouch(w.net, CloseBegun(w.net, i), i);
    case CloseStep(i) => PhaseKeepsTouch(w.net, Dropped(w.net, i), i);
  }

  lemma TimerKeepsTouch(n: Net)
    requires WellLinked(n) && AllInTouch(n)
    ensures AllInTouch(Ensured(n))
  {
  }

  lemma CommandKeepsTouch(n: Net, m: Message)
    requires WellLinked(n) && AllInTouch(n) && m.RedisCommand?
    ensures AllInTouch(Sent(n, m))
  {
    TimerKeepsTouch(n);
  }

  // Opening, beginning to close and closing change the phase of one socket, which is not
  // greeted before it is open.
  lemma PhaseKeepsTouch(n: Net, r: Net, i: nat)
    requires AllInTouch(n) && i < |n.conns| == |r.conns| && r.subs == n.subs
    requires forall j :: 0 <= j < |n.conns| && j != i ==> r.conns[j] == n.conns[j]
    requires r.conns[i].phase != Open || !r.conns[i].greeted
    ensures AllInTouch(r)
  {
  }

  ghost predicate LoneRun(w: World, steps: seq<Step>)
    requires WellLinked(w.net) && CalmRun(w, steps)
    decreases |steps|
  {
    steps != [] ==> !Orphans(w, steps[0]) && LoneRun(Apply(w, steps[0]), steps[1..])
  }

  lemma {:induction false} LoneRunKeepsOneLive(w: World, steps: seq<Step>)
    requires WellLinked(w.net) && CalmRun(w, steps) && LoneRun(w, steps) && OneLive(w.net)
    ensures OneLive(Final(w, steps).net)
    decreases |steps|
  {
    if steps != [] {
      StepKeepsOneLive(w, steps[0]);
      LoneRunKeepsOneLive(Apply(w, steps[0]), steps[1..]);
    }
  }

  // Every run that leaves no live socket behind: whichever socket is open and greeted
  // is subscribed at the hub to exactly the keys in use, with nothing left to say.
  lemma EverySocketStaysInStep(steps: seq<Step>)
    requires CalmRun(START, steps) && LoneRun(START, steps)
    ensures var n := Final(START, steps).net;
      forall i :: 0 <= i < |n.conns| && n.conns[i].phase == Open && n.conns[i].greeted ==>
        n.conns[i].hub == n.subs.Keys && n.queue == []
  {
    RunKeepsInv(START, steps);
    LoneRunKeepsOneLive(START, steps);
  }

  // One step more, at the end of a run.
  lemma {:induction false} Extend(w: World, steps: seq<Step>, step: Step)
    requires WellLinked(w.net) && CalmRun(w, steps)
    requires var end := Final(w, steps);
      WellLinked(end.net) && Possible(end, step) && !Overtakes(end, step) && WellLinked(Apply(end, step).net)
    ensures CalmRun(w, steps + [step]) && Final(w, steps + [step]) == Apply(Final(w, steps), step)
    decreases |steps|
  {
    if steps == [] {
      assert steps + [step] == [step] && [step][1..] == [];
    } else {
      Extend(Apply(w, steps[0]), steps[1..], step);
      assert (steps + [step])[1..] == steps[1..] + [step];
    }
  }

  const FRESH := Conn(Connecting, false, {})

  // One key in use, and nothing waiting.
  function Using(sub: Subscription, socket: Option<nat>, conns: seq<Conn>, backoffMs: nat, connecting: bool): World {
    var k := SubKey(sub);
    World(Net(socket, conns, map[k := sub], map[k := 1], [], backoffMs, connecting), multiset{k})
  }

  function Holding(sub: Subscription, phase: Phase): Conn {
    Conn(phase, true, {SubKey(sub)})
  }

  // Subscribed, opened and greeted.
  lemma FirstSocket(sub: Subscription) returns (steps: seq<Step>)
    ensures CalmRun(START, steps) &&
      Final(START, steps) == Using(sub, Some(0), [Holding(sub, Open)], FIRST_BACKOFF, false)
  {
    var k := SubKey(sub);
    var live := Pending(sub, Conn(Open, false, {}), true);
    OfflineSubscribe(sub);
    Extend(START, [], SubscribeStep(sub));
    assert Subscribed(IDLE, sub).conns[0].phase == Connecting;
    Extend(START, [] + [SubscribeStep(sub)], OpenStep(0));
    assert live.queue[..0] == [];
    assert DeliverAll({k}, live.queue) == Deliver(DeliverAll({k}, []), SubscribeTo(sub)) == {k};
    assert {} + live.subs.Keys == {k};
    assert live.conns[0 := Holding(sub, Open)] == [Holding(sub, Open)];
    Extend(START, [] + [SubscribeStep(sub)] + [OpenStep(0)], ReadyStep(0));
    steps := [] + [SubscribeStep(sub)] + [OpenStep(0)] + [ReadyStep(0)];
  }

  // The first socket begins to close, a second is started, and the first one's close
  // makes the client forget the second and start a third.
  lemma ThirdSocket(sub: Subscription) returns (steps: seq<Step>)
    ensures CalmRun(START, steps)
    ensures Final(START, steps) ==
      Using(sub, Some(2), [Conn(Closed, true, {}), FRESH, FRESH], 2 * FIRST_BACKOFF, true)
  {
    steps := FirstSocket(sub);
    var closing, gone := Holding(sub, Closing), Conn(Closed, true, {});
    assert [Holding(sub, Open)][0 := closing] == [closing];
    Extend(START, steps, ClosingStep(0));
    steps := steps + [ClosingStep(0)];
    assert [closing] + [FRESH] == [closing, FRESH];
    Extend(START, steps, TimerStep);
    steps := steps + [TimerStep];
    assert [closing, FRESH][0 := gone] == [gone, FRESH];
    Extend(START, steps, CloseStep(0));
    steps := steps + [CloseStep(0)];
    assert [gone, FRESH] + [FRESH] == [gone, FRESH, FRESH];
    Extend(START, steps, TimerStep);
    steps := steps + [TimerStep];
  }

  // A socket of a run with nothing queued opens and is greeted.
  lemma OpensAndIsGreeted(before: seq<Step>, i: nat, sub: Subscription, conns: seq<Conn>, backoffMs: nat,
                          connecting: bool)
      returns (steps: seq<Step>)
    requires 2 < |conns| && i < |conns| && conns[i] == FRESH
    requires CalmRun(START, before) && Final(START, before) == Using(sub, Some(2), conns, backoffMs, connecting)
    ensures CalmRun(START, steps)
    ensures Final(START, steps) == Using(sub, Some(2), conns[i := Holding(sub, Open)], FIRST_BACKOFF, false)
  {
    var waiting := conns[i := Conn(Open, false, {})];
    Extend(START, before, OpenStep(i));
    steps := before + [OpenStep(i)];
    assert Final(START, steps) == Using(sub, Some(2), waiting, FIRST_BACKOFF, false);
    assert waiting[i].hub + map[SubKey(sub) := sub].Keys == {SubKey(sub)};
    Extend(START, steps, ReadyStep(i));
    steps := steps + [ReadyStep(i)];
    assert waiting[i := Holding(sub, Open)] == conns[i := Holding(sub, Open)];
  }

  lemma ReleaseMissesTheForgotten(sub: Subscription, gone: Conn, held: Conn)
    requires held == Holding(sub, Open)
    ensures var w := Using(sub, Some(2), [gone, held, held], FIRST_BACKOFF, false); var step := ReleaseStep(sub);
      && Possible(w, step) && !Overtakes(w, step) && WellLinked(Apply(w, step).net)
      && var n := Apply(w, step).net; n.subs == map[] && |n.conns| == 3 && n.conns[1] == held
  {
    var w := Using(sub, Some(2), [gone, held, held], FIRST_BACKOFF, false);
    assert w.net.subs - {SubKey(sub)} == map[];
  }

  // The forgotten socket opens and is greeted like the current one. The release goes to
  // the current one only: the other stays open and subscribed to a key nobody uses.
  lemma AForgottenSocketKeepsASubscription(sub: Subscription) returns (steps: seq<Step>)
    ensures CalmRun(START, steps)
    ensures var n := Final(START, steps).net;
      n.subs == map[] && 1 < |n.conns| && n.conns[1].phase == Open && n.conns[1].greeted &&
        n.conns[1].hub == {SubKey(sub)}
  {
    var k, gone, held := SubKey(sub), Conn(Closed, true, {}), Holding(sub, Open);
    steps := ThirdSocket(sub);
    steps := OpensAndIsGreeted(steps, 1, sub, [gone, FRESH, FRESH], 2 * FIRST_BACKOFF, true);
    assert [gone, FRESH, FRESH][1 := held] == [gone, held, FRESH];
    steps := OpensAndIsGreeted(steps, 2, sub, [gone, held, FRESH], FIRST_BACKOFF, false);
    assert [gone, held, FRESH][2 := held] == [gone, held, held];
    ReleaseMissesTheForgotten(sub, gone, held);
    Extend(START, steps, ReleaseStep(sub));
    steps := steps + [ReleaseStep(sub)];
  }

  // ----- backoff -------------------------------------------------------------------------

  function Pow2(n: nat): nat {
    if n == 0 then 1 else 2 * Pow2(n - 1)
  }

  // The pause before the next attempt after `failures` closes with no open between.
  function BackoffAfter(failures: nat): nat {
    if failures == 0 then FIRST_BACKOFF
    else
      var b := BackoffAfter(failures - 1);
      if b * 2 < MAX_BACKOFF then b * 2 else MAX_BACKOFF
  }

  lemma {:induction false} BackoffDoublesToTheCap(failures: nat)
    ensures BackoffAfter(failures) ==
      if FIRST_BACKOFF * Pow2(failures) < MAX_BACKOFF then FIRST_BACKOFF * Pow2(failures) else MAX_BACKOFF
  {
    if failures > 0 {
      BackoffDoublesToTheCap(failures - 1);
    }
  }

  lemma CloseAdvancesTheBackoff(n: Net, i: nat, failures: nat)
    requires i < |n.conns| && n.backoffMs == BackoffAfter(failures)
    ensures Dropped(n, i).backoffMs == BackoffAfter(failures + 1)
    ensures Opened(n, i).backoffMs == BackoffAfter(0)
  {
  }
}
