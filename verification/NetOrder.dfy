/** Delivery: every message that entered is delivered once, at its destination, over
    exactly the links of its route, and in the order of sending. */
module NetOrder {
  import opened Sequences
  import opened Topology
  import opened Routes
  import opened NetState
  import opened NetInvariant
  import opened NetPrimitives
  import opened NetHandlers
  import opened NetRuns
  import opened NetTraffic

  // ---- Where a message is on its route ----

  /** The node where the table leads after `h` links, or no node. */
  function NodeAfter(c: Config, src: nat, dst: nat, h: nat): int {
    if h == 0 then src
    else
      var u := NodeAfter(c, src, dst, h - 1);
      if 0 <= u < |c.table| && dst < |c.table[u]| && 0 <= c.table[u][dst].out < |c.net.links|
      then c.net.links[c.table[u][dst].out].dst
      else NONE
  }

  /** The message is in the output buffer after `hops` links of its route, or in the
      input buffer at the end of the last of them. */
  ghost predicate OnRoute(c: Config, m: Msg) {
    && m.node == NodeAfter(c, m.src, m.dst, m.hops)
    && if m.buffer < |c.net.links| then IsNextOutput(c, m, m.buffer)
       else
         && m.hops >= 1
         && var u := NodeAfter(c, m.src, m.dst, m.hops - 1);
         && 0 <= u < |c.table| && m.dst < |c.table[u]|
         && m.buffer == InputOf(c, 0) + c.table[u][m.dst].out
  }

  /** How far a message has come: crossing a link or a switch is one step. */
  function Progress(c: Config, m: Msg): int {
    if m.buffer < |c.net.links| then 2 * m.hops else 2 * m.hops - 1
  }

  predicate SameFlow(a: Msg, b: Msg) {
    a.src == b.src && a.dst == b.dst
  }

  lemma SameProgressSameBuffer(c: Config, a: Msg, b: Msg)
    requires OnRoute(c, a) && OnRoute(c, b) && SameFlow(a, b) && Progress(c, a) == Progress(c, b)
    ensures a.buffer == b.buffer
  {
  }

  // ---- Order ----

  ghost predicate Queued(msgs: seq<nat>, x: nat, y: nat) {
    exists i, j :: 0 <= i < j < |msgs| && msgs[i] == x && msgs[j] == y
  }

  /** `x` has come further than `y`, or is before it in the same buffer. */
  ghost predicate AheadOf(c: Config, s: State, x: nat, y: nat)
    requires x in s.flight && y in s.flight
  {
    var a, b := s.flight[x], s.flight[y];
    || Progress(c, a) > Progress(c, b)
    || (Progress(c, a) == Progress(c, b) && a.buffer == b.buffer < |s.buffers| && Queued(s.buffers[a.buffer].msgs, x, y))
  }

  lemma QueuedTail(msgs: seq<nat>, x: nat, y: nat)
    requires Queued(msgs, x, y) && msgs[0] != x
    ensures Queued(msgs[1..], x, y)
  {
    var i, j :| 0 <= i < j < |msgs| && msgs[i] == x && msgs[j] == y;
    assert msgs[1..][i - 1] == x && msgs[1..][j - 1] == y;
  }

  lemma QueuedAppend(msgs: seq<nat>, x: nat, y: nat, z: nat)
    ensures Queued(msgs, x, y) ==> Queued(msgs + [z], x, y)
    ensures x in msgs ==> Queued(msgs + [z], x, z)
  {
    if Queued(msgs, x, y) {
      var i, j :| 0 <= i < j < |msgs| && msgs[i] == x && msgs[j] == y;
      assert (msgs + [z])[i] == x && (msgs + [z])[j] == y;
    }
    if x in msgs {
      var i :| 0 <= i < |msgs| && msgs[i] == x;
      assert (msgs + [z])[i] == x && (msgs + [z])[|msgs|] == z;
    }
  }

  /** The part of the invariant that order depends on. */
  ghost predicate Steady(c: Config, s: State) {
    ValidConfig(c) && Placed(c, s) && Routed(c, s)
  }

  ghost predicate InOrder(c: Config, s: State) {
    && (forall id :: id in s.flight ==> OnRoute(c, s.flight[id]))
    && (forall x, y :: x in s.flight && y in s.flight && x < y && SameFlow(s.flight[x], s.flight[y]) ==>
          AheadOf(c, s, x, y))
  }

  // ---- Deliveries ----

  /** The message reached its destination over exactly the links of its route. */
  ghost predicate DeliveredWell(c: Config, m: Msg)
    requires ValidConfig(c)
  {
    && m.src < |c.net.nodes| && m.dst < |c.net.nodes|
    && m.node == m.dst
    && Hops(c.net, c.table, m.src, m.dst, m.hops)
  }

  ghost predicate DeliveredOnce(s: State, i: nat)
    requires i < |s.delivered|
  {
    var id := s.delivered[i].0;
    && 1 <= id <= s.lastId && id !in s.flight
    && forall j :: 0 <= j < |s.delivered| && j != i ==> s.delivered[j].0 != id
  }

  /** Whatever of the same flow comes after delivery `i`, delivered or in flight, was
      sent later. */
  ghost predicate DeliveredFirst(s: State, i: nat)
    requires i < |s.delivered|
  {
    var (id, m) := s.delivered[i];
    && (forall j :: i < j < |s.delivered| && SameFlow(m, s.delivered[j].1) ==> id < s.delivered[j].0)
    && (forall y :: y in s.flight && SameFlow(m, s.flight[y]) ==> id < y)
  }

  ghost predicate Accounted(s: State, id: nat) {
    id in s.flight || exists i :: 0 <= i < |s.delivered| && s.delivered[i].0 == id
  }

  ghost predicate Deliveries(c: Config, s: State)
    requires ValidConfig(c)
  {
    && (forall i :: 0 <= i < |s.delivered| ==>
          DeliveredWell(c, s.delivered[i].1) && DeliveredOnce(s, i) && DeliveredFirst(s, i))
    && (forall id :: id in s.flight ==> id >= 1)
    && (forall id: nat :: 1 <= id <= s.lastId ==> Accounted(s, id))
  }

  // ---- Each kind of travel keeps both ----

  lemma StillKeeps(c: Config, s: State, t: State)
    requires ValidConfig(c) && InOrder(c, s) && Deliveries(c, s) && Still(s, t)
    ensures InOrder(c, t) && Deliveries(c, t)
  {
    forall x, y | x in t.flight && y in t.flight && x < y && SameFlow(t.flight[x], t.flight[y])
      ensures AheadOf(c, t, x, y)
    {
      assert AheadOf(c, s, x, y);
    }
    SameDeliveries(c, s, t);
  }

  lemma MovedOnRoute(c: Config, m: Msg, to: nat, until: int)
    requires ValidConfig(c) && RoutedMsg(c, m) && OnRoute(c, m) && IsBuffer(c, to)
    requires if m.buffer < |c.net.links| then to == InputOf(c, m.buffer) else IsNextOutput(c, m, to)
    ensures var moved := Moved(c, m, to, until);
      OnRoute(c, moved) && Progress(c, moved) == Progress(c, m) + 1 && SameFlow(m, moved)
  {
    if m.buffer >= |c.net.links| {
      NextOutput(c, m);
    }
  }

  lemma CrossingOnRoute(c: Config, s: State, t: State, id: nat, to: nat)
    requires Steady(c, s) && InOrder(c, s) && Crosses(c, s, t, id, to)
    ensures OnRoute(c, t.flight[id]) && Progress(c, t.flight[id]) == Progress(c, s.flight[id]) + 1
    ensures SameFlow(s.flight[id], t.flight[id])
  {
    assert RoutedMsg(c, s.flight[id]) && OnRoute(c, s.flight[id]);
    MovedOnRoute(c, s.flight[id], to, t.flight[id].busy);
  }

  /** A message that joins the buffer where an older one of its flow is queues behind. */
  lemma JoinsBehind(c: Config, s: State, t: State, x: nat, y: nat, to: nat)
    requires Placed(c, s) && x in s.flight && x in t.flight && y in t.flight && t.flight[x] == s.flight[x]
    requires OnRoute(c, s.flight[x]) && OnRoute(c, t.flight[y]) && SameFlow(s.flight[x], t.flight[y])
    requires t.flight[y].buffer == to < |s.buffers| == |t.buffers|
    requires t.buffers[to].msgs == s.buffers[to].msgs + [y]
    requires Progress(c, s.flight[x]) == Progress(c, t.flight[y])
    ensures AheadOf(c, t, x, y)
  {
    SameProgressSameBuffer(c, s.flight[x], t.flight[y]);
    assert PlacedMsg(c, s, x);
    QueuedAppend(s.buffers[to].msgs, x, 0, y);
  }

  /** The queue is unchanged, lost another head than `x`, or got a new tail. */
  ghost predicate Keeps(before: seq<nat>, after: seq<nat>, x: nat) {
    || after == before
    || (before != [] && before[0] != x && after == before[1..])
    || exists z :: after == before + [z]
  }

  /** Messages that stay stay in order, whatever leaves or joins. */
  lemma StayQueued(c: Config, s: State, t: State, x: nat, y: nat)
    requires x in s.flight && y in s.flight && AheadOf(c, s, x, y)
    requires x in t.flight && y in t.flight && t.flight[x] == s.flight[x] && t.flight[y] == s.flight[y]
    requires s.flight[x].buffer < |s.buffers| == |t.buffers|
    requires Keeps(s.buffers[s.flight[x].buffer].msgs, t.buffers[s.flight[x].buffer].msgs, x)
    ensures AheadOf(c, t, x, y)
  {
    var b := s.flight[x].buffer;
    var msgs := s.buffers[b].msgs;
    if Queued(msgs, x, y) {
      if msgs[0] != x {
        QueuedTail(msgs, x, y);
      }
      if z :| t.buffers[b].msgs == msgs + [z] {
        QueuedAppend(msgs, x, y, z);
      }
    }
  }

  lemma NotBehindHead(c: Config, s: State, id: nat, x: nat)
    requires Placed(c, s) && id in s.flight && x in s.flight && x != id && IsBuffer(c, s.flight[id].buffer)
    requires IsHead(s, id) && AheadOf(c, s, x, id)
    ensures Progress(c, s.flight[x]) > Progress(c, s.flight[id])
  {
    assert PlacedBuffer(s, s.flight[id].buffer);
  }

  lemma CrossingKeepsOrder(c: Config, s: State, t: State, id: nat, to: nat, x: nat, y: nat)
    requires Steady(c, s) && InOrder(c, s) && Crosses(c, s, t, id, to)
    requires x in t.flight && y in t.flight && x < y && SameFlow(t.flight[x], t.flight[y])
    ensures AheadOf(c, t, x, y)
  {
    CrossingOnRoute(c, s, t, id, to);
    assert AheadOf(c, s, x, y);
    if y == id {
      CrossingBehind(c, s, t, id, to, x);
    } else if x != id {
      CrossingElsewhere(c, s, t, id, to, x, y);
    }
  }

  lemma CrossingBehind(c: Config, s: State, t: State, id: nat, to: nat, x: nat)
    requires Placed(c, s) && Crosses(c, s, t, id, to)
    requires x in s.flight && x != id && AheadOf(c, s, x, id) && OnRoute(c, s.flight[x])
    requires OnRoute(c, t.flight[id]) && Progress(c, t.flight[id]) == Progress(c, s.flight[id]) + 1
    requires SameFlow(s.flight[x], t.flight[id])
    ensures AheadOf(c, t, x, id)
  {
    NotBehindHead(c, s, id, x);
    if Progress(c, s.flight[x]) == Progress(c, t.flight[id]) {
      JoinsBehind(c, s, t, x, id, to);
    }
  }

  lemma CrossingElsewhere(c: Config, s: State, t: State, id: nat, to: nat, x: nat, y: nat)
    requires Placed(c, s) && Crosses(c, s, t, id, to)
    requires x in s.flight && y in s.flight && x != id && y != id && AheadOf(c, s, x, y)
    ensures AheadOf(c, t, x, y)
  {
    assert PlacedMsg(c, s, x);
    StayQueued(c, s, t, x, y);
  }

  lemma CrossesKeeps(c: Config, s: State, t: State, id: nat, to: nat)
    requires Steady(c, s) && InOrder(c, s) && Deliveries(c, s) && Crosses(c, s, t, id, to)
    ensures InOrder(c, t) && Deliveries(c, t)
  {
    CrossingOnRoute(c, s, t, id, to);
    forall x, y | x in t.flight && y in t.flight && x < y && SameFlow(t.flight[x], t.flight[y])
      ensures AheadOf(c, t, x, y)
    {
      CrossingKeepsOrder(c, s, t, id, to, x, y);
    }
    SameDeliveries(c, s, t);
  }

  /** Moving messages leaves the record of deliveries as good as it was. */
  lemma SameDeliveries(c: Config, s: State, t: State)
    requires ValidConfig(c) && Deliveries(c, s)
    requires t.flight.Keys == s.flight.Keys && t.lastId == s.lastId && t.delivered == s.delivered
    requires forall id :: id in s.flight ==> SameFlow(s.flight[id], t.flight[id])
    ensures Deliveries(c, t)
  {
    forall i | 0 <= i < |t.delivered|
      ensures DeliveredWell(c, t.delivered[i].1) && DeliveredOnce(t, i) && DeliveredFirst(t, i)
    {
      assert DeliveredOnce(s, i) && DeliveredFirst(s, i);
    }
    forall k: nat | 1 <= k <= t.lastId
      ensures Accounted(t, k)
    {
      assert Accounted(s, k);
    }
  }

  lemma EntersKeeps(c: Config, s: State, t: State, m: Msg)
    requires Steady(c, s) && InOrder(c, s) && Deliveries(c, s) && Enters(c, s, t, m)
    ensures InOrder(c, t) && Deliveries(c, t)
  {
    var id := t.lastId;
    assert OnRoute(c, m);
    forall x, y | x in t.flight && y in t.flight && x < y && SameFlow(t.flight[x], t.flight[y])
      ensures AheadOf(c, t, x, y)
    {
      assert y == id || PlacedMsg(c, s, y);
      EnteringKeepsOrder(c, s, t, m, x, y);
    }
    forall i | 0 <= i < |t.delivered|
      ensures DeliveredWell(c, t.delivered[i].1) && DeliveredOnce(t, i) && DeliveredFirst(t, i)
    {
      assert DeliveredOnce(s, i) && DeliveredFirst(s, i);
    }
    forall k: nat | 1 <= k <= t.lastId
      ensures Accounted(t, k)
    {
      assert k == id || Accounted(s, k);
    }
  }

  lemma EnteringKeepsOrder(c: Config, s: State, t: State, m: Msg, x: nat, y: nat)
    requires Steady(c, s) && InOrder(c, s) && Enters(c, s, t, m) && OnRoute(c, m)
    requires x in t.flight && y in t.flight && x < y && SameFlow(t.flight[x], t.flight[y])
    requires t.lastId != x
    ensures AheadOf(c, t, x, y)
  {
    assert PlacedMsg(c, s, x) && OnRoute(c, s.flight[x]);
    if y == t.lastId {
      if Progress(c, s.flight[x]) <= 0 {
        JoinsBehind(c, s, t, x, y, m.buffer);
      }
    } else {
      StayQueued(c, s, t, x, y);
    }
  }

  /** Nothing of the same flow that was sent earlier is still on its way when a message
      is at its destination. */
  lemma ArrivedIsOldest(c: Config, s: State, id: nat, x: nat)
    requires Steady(c, s) && InOrder(c, s) && id in s.flight && Arrived(c, s, id)
    requires x in s.flight && x != id && SameFlow(s.flight[x], s.flight[id])
    ensures id < x
  {
    var m, a := s.flight[id], s.flight[x];
    assert PlacedMsg(c, s, id) && PlacedMsg(c, s, x) && RoutedMsg(c, m) && RoutedMsg(c, a);
    if x < id {
      assert AheadOf(c, s, x, id);
      NotBehindHead(c, s, id, x);
      AtMostTheRoute(c, m, a);
    }
  }

  lemma AtMostTheRoute(c: Config, m: Msg, a: Msg)
    requires ValidConfig(c) && RoutedMsg(c, m) && RoutedMsg(c, a) && SameFlow(m, a)
    requires m.node == m.dst && m.buffer >= |c.net.links|
    ensures Progress(c, a) <= Progress(c, m)
  {
    var j: nat :| Remaining(c, m, j);
    var k: nat :| Remaining(c, a, k);
    HopsUnique(c.net, c.table, m.src, m.dst, m.hops + j, a.hops + k);
    if a.buffer < |c.net.links| {
      CrossLink(c, a, 0);
    }
  }

  lemma LeavesKeeps(c: Config, s: State, t: State, id: nat)
    requires Steady(c, s) && InOrder(c, s) && Deliveries(c, s) && Leaves(c, s, t, id)
    ensures InOrder(c, t) && Deliveries(c, t)
  {
    forall x, y | x in t.flight && y in t.flight && x < y && SameFlow(t.flight[x], t.flight[y])
      ensures AheadOf(c, t, x, y)
    {
      LeavingKeepsOrder(c, s, t, id, x, y);
    }
    LeavingKeepsDeliveries(c, s, t, id);
  }

  lemma LeavingKeepsDeliveries(c: Config, s: State, t: State, id: nat)
    requires Steady(c, s) && InOrder(c, s) && Deliveries(c, s) && Leaves(c, s, t, id)
    ensures Deliveries(c, t)
  {
    LeavingIsDelivery(c, s, id);
    NewDelivery(c, s, t, id);
    forall i: nat | i < |s.delivered|
      ensures DeliveredWell(c, t.delivered[i].1) && DeliveredOnce(t, i) && DeliveredFirst(t, i)
    {
      OldDelivery(c, s, t, id, i);
    }
    forall k: nat | 1 <= k <= t.lastId
      ensures Accounted(t, k)
    {
      LeavingAccounts(s, t, id, k);
    }
  }

  lemma OldDelivery(c: Config, s: State, t: State, id: nat, i: nat)
    requires Steady(c, s) && Deliveries(c, s) && Leaves(c, s, t, id) && i < |s.delivered|
    ensures i < |t.delivered| && t.delivered[i] == s.delivered[i]
    ensures DeliveredWell(c, t.delivered[i].1) && DeliveredOnce(t, i) && DeliveredFirst(t, i)
  {
    assert DeliveredOnce(s, i) && DeliveredFirst(s, i);
  }

  lemma LeavingAccounts(s: State, t: State, id: nat, k: nat)
    requires Accounted(s, k) && id in s.flight && t.flight == s.flight - {id}
    requires t.delivered == s.delivered + [(id, s.flight[id])]
    ensures Accounted(t, k)
  {
    if k == id {
      assert t.delivered[|s.delivered|].0 == k;
    } else if k !in s.flight {
      var i :| 0 <= i < |s.delivered| && s.delivered[i].0 == k;
      assert t.delivered[i].0 == k;
    }
  }

  lemma LeavingIsDelivery(c: Config, s: State, id: nat)
    requires Steady(c, s) && id in s.flight && Arrived(c, s, id)
    ensures DeliveredWell(c, s.flight[id])
  {
    assert RoutedMsg(c, s.flight[id]);
    var k: nat :| Remaining(c, s.flight[id], k);
  }

  lemma NewDelivery(c: Config, s: State, t: State, id: nat)
    requires Steady(c, s) && InOrder(c, s) && Deliveries(c, s) && Leaves(c, s, t, id)
    ensures DeliveredOnce(t, |s.delivered|) && DeliveredFirst(t, |s.delivered|)
  {
    assert PlacedMsg(c, s, id);
    forall j | 0 <= j < |s.delivered|
      ensures s.delivered[j].0 != id
    {
      assert DeliveredOnce(s, j);
    }
    forall y | y in t.flight && SameFlow(s.flight[id], t.flight[y])
      ensures id < y
    {
      ArrivedIsOldest(c, s, id, y);
    }
  }

  lemma LeavingKeepsOrder(c: Config, s: State, t: State, id: nat, x: nat, y: nat)
    requires Placed(c, s) && InOrder(c, s) && Leaves(c, s, t, id)
    requires x in t.flight && y in t.flight && x < y && SameFlow(t.flight[x], t.flight[y])
    ensures AheadOf(c, t, x, y)
  {
    assert PlacedMsg(c, s, x) && AheadOf(c, s, x, y);
    StayQueued(c, s, t, x, y);
  }

  // ---- Runs ----

  lemma ActionDelivers(c: Config, s: State, a: Action)
    requires Inv(c, s, {}) && InOrder(c, s) && Deliveries(c, s) && Enabled(c, s, a)
    ensures Safe(c, s, a)
    ensures InOrder(c, Apply(c, s, a)) && Deliveries(c, Apply(c, s, a))
  {
    ActionTravels(c, s, a);
    var t := Apply(c, s, a);
    if a.Send? {
      SendEnters(c, s, a.src, a.dst, a.size, a.notify, a.tag);
      if !Still(s, t) {
        var m :| Enters(c, s, t, m);
        EntersKeeps(c, s, t, m);
      } else {
        StillKeeps(c, s, t);
      }
    } else if Still(s, t) {
      StillKeeps(c, s, t);
    } else if exists id, to :: Crosses(c, s, t, id, to) {
      var id, to :| Crosses(c, s, t, id, to);
      CrossesKeeps(c, s, t, id, to);
    } else {
      var id :| Leaves(c, s, t, id);
      LeavesKeeps(c, s, t, id);
    }
  }

  lemma {:induction false} RunsDeliver(c: Config, states: seq<State>, actions: seq<Action>)
    requires Run(c, states, actions)
    ensures InOrder(c, states[|actions|]) && Deliveries(c, states[|actions|])
  {
    var n := |actions|;
    if n > 0 {
      Prefix(c, states, actions, n - 1);
      RunsDeliver(c, states[..n], actions[..n - 1]);
      SafeAt(c, states, actions, n - 1);
      ActionDelivers(c, states[n - 1], actions[n - 1]);
    }
  }

  /** Messages with the same source and destination are delivered in the order in which
      they were sent, none is delivered twice, and each crossed exactly the links of its
      route. */
  lemma DeliveryOrder(c: Config, states: seq<State>, actions: seq<Action>, i: nat, j: nat)
    requires Run(c, states, actions) && i < j < |states[|actions|].delivered|
    ensures var d := states[|actions|].delivered;
      && d[i].0 != d[j].0
      && (SameFlow(d[i].1, d[j].1) ==> d[i].0 < d[j].0)
      && Hops(c.net, c.table, d[i].1.src, d[i].1.dst, d[i].1.hops)
      && d[i].1.node == d[i].1.dst
  {
    RunsDeliver(c, states, actions);
    assert DeliveredOnce(states[|actions|], i) && DeliveredFirst(states[|actions|], i);
  }

  /** With a shortest table, a delivered message crossed as many links as its entry
      costs, which is the distance. */
  lemma CrossesCostLinks(c: Config, states: seq<State>, actions: seq<Action>, i: nat)
    requires Run(c, states, actions) && i < |states[|actions|].delivered| && ShortestTable(c.net, c.table)
    ensures var m := states[|actions|].delivered[i].1;
      && m.src < |c.table| && m.dst < |c.table[m.src]|
      && m.hops == c.table[m.src][m.dst].cost
      && Distance(c.net, m.src, m.dst, m.hops)
  {
    RunsDeliver(c, states, actions);
    var s := states[|actions|];
    var m := s.delivered[i].1;
    assert DeliveredWell(c, m);
    var w := HopsIsWalk(c.net, c.table, m.src, m.dst, m.hops);
    assert Reachable(c.net, m.src, m.dst);
    if m.src == m.dst {
      assert DiagonalEntry(c.net, m.src, c.table[m.src][m.src]);
      assert WalkFrom(c.net, [m.src], m.src, m.src);
      assert m.hops == 0;
    } else {
      var cost := c.table[m.src][m.dst].cost;
      assert ShortestEntry(c.net, m.src, m.dst, c.table[m.src][m.dst]);
      ShortestTableDelivers(c.net, c.table, m.src, m.dst, cost);
      HopsUnique(c.net, c.table, m.src, m.dst, m.hops, cost);
    }
  }

  // ---- Everything that is there was sent ----

  predicate SameLabel(a: Msg, b: Msg) {
    a.src == b.src && a.dst == b.dst && a.size == b.size && a.notify == b.notify
  }

  /** The state holds or has delivered message `id` with the label of `m`. */
  ghost predicate Knows(s: State, id: nat, m: Msg) {
    || (id in s.flight && SameLabel(s.flight[id], m))
    || exists i :: 0 <= i < |s.delivered| && s.delivered[i].0 == id && SameLabel(s.delivered[i].1, m)
  }

  lemma KnownBefore(c: Config, s: State, t: State, id: nat, m: Msg)
    requires Travels(c, s, t) && Knows(t, id, m)
    ensures Knows(s, id, m)
  {
    if id in t.flight && SameLabel(t.flight[id], m) {
      if !Still(s, t) && exists x, to :: Crosses(c, s, t, x, to) {
        var x, to :| Crosses(c, s, t, x, to);
        assert SameLabel(t.flight[x], s.flight[x]);
      }
    } else {
      var i :| 0 <= i < |t.delivered| && t.delivered[i].0 == id && SameLabel(t.delivered[i].1, m);
      if i < |s.delivered| {
        assert s.delivered[i] == t.delivered[i];
      }
    }
  }

  /** The send with the label of `m` made it the message `id`. */
  ghost predicate Sends(s: State, a: Action, t: State, id: nat, m: Msg) {
    && a.Send? && s.lastId + 1 == t.lastId == id
    && a.src == m.src && a.dst == m.dst && a.size == m.size && a.notify == m.notify
  }

  /** Every message in flight or delivered goes back to one accepted send, the `id`-th,
      with its source, destination, size and receiver. */
  lemma {:induction false} WasSent(c: Config, states: seq<State>, actions: seq<Action>, n: nat, id: nat, m: Msg) returns (k: nat)
    requires Run(c, states, actions) && n <= |actions| && Knows(states[n], id, m)
    ensures k < n && Sends(states[k], actions[k], states[k + 1], id, m)
  {
    if n > 0 {
      SentOrKnownAt(c, states, actions, n - 1, id, m);
      if Sends(states[n - 1], actions[n - 1], states[n], id, m) {
        k := n - 1;
      } else {
        k := WasSent(c, states, actions, n - 1, id, m);
      }
    }
  }

  lemma SentOrKnownAt(c: Config, states: seq<State>, actions: seq<Action>, k: nat, id: nat, m: Msg)
    requires Run(c, states, actions) && k < |actions| && Knows(states[k + 1], id, m)
    ensures Sends(states[k], actions[k], states[k + 1], id, m) || Knows(states[k], id, m)
  {
    Prefix(c, states, actions, k);
    SafeAt(c, states, actions, k);
    RunsDeliver(c, states[..k + 1], actions[..k]);
    SentOrKnown(c, states[k], actions[k], states[k + 1], id, m);
  }

  lemma SentOrKnown(c: Config, s: State, a: Action, t: State, id: nat, m: Msg)
    requires Inv(c, s, {}) && Deliveries(c, s) && Step(c, s, a, t) && Knows(t, id, m)
    ensures Sends(s, a, t, id, m) || Knows(s, id, m)
  {
    ActionTravels(c, s, a);
    if a.Send? {
      SendEnters(c, s, a.src, a.dst, a.size, a.notify, a.tag);
      if !Still(s, t) {
        var sent: Msg :| Enters(c, s, t, sent) && sent.src == a.src && sent.dst == a.dst
          && sent.size == a.size && sent.notify == a.notify;
        KnownThroughSend(c, s, t, sent, id, m);
      }
    } else {
      KnownBefore(c, s, t, id, m);
    }
  }

  lemma KnownThroughSend(c: Config, s: State, t: State, sent: Msg, id: nat, m: Msg)
    requires ValidConfig(c) && Deliveries(c, s) && Enters(c, s, t, sent) && Knows(t, id, m)
    ensures if id == t.lastId then SameLabel(sent, m) else Knows(s, id, m)
  {
    if i :| 0 <= i < |t.delivered| && t.delivered[i].0 == id && SameLabel(t.delivered[i].1, m) {
      assert DeliveredOnce(s, i);
    }
  }

  // ---- Announcements ----

  /** Only messages whose sender asked for an event are announced. */
  ghost predicate Asked(s: State) {
    forall id :: id in s.awaiting ==> id in s.flight && s.flight[id].notify
  }

  /** Handling an event of a message in a buffer announces nobody. */
  ghost predicate NoneAnnounced(s: State, t: State) {
    forall id :: id in t.awaiting ==> id in s.awaiting && (id in s.flight ==> id in t.flight && t.flight[id].notify == s.flight[id].notify)
  }

  lemma OutputAnnouncesNone(c: Config, s: State, id: nat)
    requires Handles(c, s, id) && s.flight[id].buffer < |c.net.links|
    ensures NoneAnnounced(s, OutputStep(c, s, id))
  {
    assert WellFormedLink(c.net, c.net.links[s.flight[id].buffer]);
  }

  lemma InputAnnouncesNone(c: Config, s: State, id: nat)
    requires Inv(c, s, {id}) && id in s.flight && s.flight[id].buffer >= |c.net.links|
    ensures Handles(c, s, id) && (s.flight[id].node != s.flight[id].dst ==> InTransit(c, s.flight[id]))
    ensures NoneAnnounced(s, InputStep(c, s, id))
  {
    HandlesMsg(c, s, id);
    var m := s.flight[id];
    if IsHead(s, id) && m.node != m.dst && s.buffers[m.buffer].readBusy < s.cycle {
      var out := CrossingAllowed(c, s, id);
      CrossAnnouncesNone(c, s, id, out);
    }
  }

  lemma CrossAnnouncesNone(c: Config, s: State, id: nat, out: nat)
    requires MayCross(c, s, id, out)
    ensures NoneAnnounced(s, CrossStep(c, s, id))
  {
    if s.buffers[out].writeBusy < s.cycle && s.buffers[out].count + s.flight[id].size <= Capacity(c, out) {
      var d := NodeSchedule(c, s, out);
      StillDeparts(c, s, id, out);
      assert d.awaiting == s.awaiting;
      TransferAnnouncesNone(c, d, id, out, Until(s.cycle, Latency(s.flight[id].size, c.net.nodes[s.flight[id].node].bandwidth)));
    }
  }

  lemma TransferAnnouncesNone(c: Config, s: State, id: nat, to: nat, until: int)
    requires id in s.flight && s.flight[id].buffer < |s.buffers| && IsHead(s, id) && IsBuffer(c, to) && to < |s.buffers|
    ensures NoneAnnounced(s, Transfer(c, s, id, to, until))
  {
  }

  /** The message at its destination is announced if its sender asked for that, and
      otherwise delivered at once. */
  lemma ReceiveAnnounces(c: Config, s: State, id: nat)
    requires Handles(c, s, id) && IsHead(s, id)
    ensures var t := ReceiveStep(c, s, id);
      if s.flight[id].notify then
        t.awaiting == s.awaiting + {id} && t.flight == s.flight && t.delivered == s.delivered && t.buffers == s.buffers
      else
        && t.awaiting == s.awaiting - {id} && t.flight == s.flight - {id}
        && t.delivered == s.delivered + [(id, s.flight[id])]
  {
  }

  lemma ActionAsked(c: Config, s: State, a: Action)
    requires Inv(c, s, {}) && Enabled(c, s, a) && Safe(c, s, a) && Asked(s)
    ensures Asked(Apply(c, s, a))
  {
    match a
    case Handle(at) => HandleAsked(c, s, at);
    case Advance =>
    case Send(src, dst, size, notify, tag) => SendAsked(c, s, src, dst, size, notify, tag);
    case Take(id) =>
  }

  lemma HandleAsked(c: Config, s: State, at: nat)
    requires Inv(c, s, {}) && Enabled(c, s, Handle(at)) && Safe(c, s, Handle(at)) && Asked(s)
    ensures Asked(Apply(c, s, Handle(at)))
  {
    PopKeeps(c, s, at);
    CoreEvent(c, s, Pop(s, at), s.events[at]);
    HandlerAsked(c, Pop(s, at), s.events[at]);
  }

  lemma SendAsked(c: Config, s: State, src: nat, dst: nat, size: nat, notify: bool, tag: nat)
    requires Inv(c, s, {}) && Deliverable(c, src, dst, size) && Asked(s)
    ensures Asked(TrySend(c, s, src, dst, size, notify, tag))
  {
    NewIdentifier(c, s);
    SendOutcome(c, s, src, dst, size, notify, tag);
    var out, k := FirstOutput(c, src, dst, size);
    assert TrySend(c, s, src, dst, size, notify, tag).awaiting == s.awaiting;
  }

  lemma HandlerAsked(c: Config, s: State, e: Event)
    requires Inv(c, s, InHand(e.resume)) && EventOk(c, s, e) && e.time == s.cycle && Asked(s)
    ensures SafeHandler(c, s, e.resume) && Asked(Handler(c, s, e.resume))
  {
    HandlerKeeps(c, s, e);
    match e.resume
    case OutputBuffer(id) => OutputAnnouncesNone(c, s, id);
    case InputBuffer(id) => InputAnnouncesNone(c, s, id);
    case Receive(id) => ReceiveAnnounces(c, s, id);
    case Retry(_) =>
  }

  /** In every state of every run, whoever is announced was sent with the request for it. */
  lemma {:induction false} OnlyAskedAreAnnounced(c: Config, states: seq<State>, actions: seq<Action>, k: nat)
    requires Run(c, states, actions) && k <= |actions|
    ensures Asked(states[k])
    decreases k
  {
    if k > 0 {
      OnlyAskedAreAnnounced(c, states, actions, k - 1);
      SafeAt(c, states, actions, k - 1);
      ActionAsked(c, states[k - 1], actions[k - 1]);
    }
  }

  /** When the event of a message at its destination is handled, it is announced if it was
      sent with the request for that, and otherwise delivered at once. */
  lemma ReceiptIsExact(c: Config, states: seq<State>, actions: seq<Action>, k: nat, id: nat)
    requires Run(c, states, actions) && k < |actions| && actions[k].Handle?
    requires actions[k].at < |states[k].events| && states[k].events[actions[k].at].resume == Resume.Receive(id)
    ensures id in states[k].flight
    ensures if states[k].flight[id].notify then id in states[k + 1].awaiting
            else states[k + 1].delivered == states[k].delivered + [(id, states[k].flight[id])]
  {
    SafeAt(c, states, actions, k);
    var p := Pop(states[k], actions[k].at);
    assert Handles(c, p, id);
    ReceiveAnnounces(c, p, id);
  }
}
