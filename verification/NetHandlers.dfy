/** Every event handler keeps the invariant and puts the continuation it was given back
    exactly once, as an event or as a wakeup entry. */
module NetHandlers {
  import opened Sequences
  import opened Topology
  import opened Routes
  import opened NetState
  import opened NetInvariant
  import opened NetPrimitives

  // ---- Routes of moving messages ----

  /** Crossing the link consumes one hop of the route. */
  lemma CrossLink(c: Config, m: Msg, until: int)
    requires ValidConfig(c) && RoutedMsg(c, m) && m.buffer < |c.net.links|
    ensures m.node != m.dst
    ensures RoutedMsg(c, Moved(c, m, InputOf(c, m.buffer), until))
  {
    var k: nat :| Remaining(c, m, k);
    var m' := Moved(c, m, InputOf(c, m.buffer), until);
    assert Linked(c.net, m.node, c.table[m.node][m.dst]);
    assert Remaining(c, m', k - 1);
    forall b: nat | IsBuffer(c, b)
      ensures Fits(c, m', b)
    {
      assert Fits(c, m, b);
    }
  }

  /** A message that has not arrived finds its next output buffer in the table, in a
      switch. */
  lemma NextOutput(c: Config, m: Msg)
    requires ValidConfig(c) && RoutedMsg(c, m) && m.buffer >= |c.net.links| && m.node != m.dst
    ensures m.node < |c.table| && m.dst < |c.table| && c.table[m.node][m.dst].out != NONE
    ensures c.net.nodes[m.node].kind == Switch
    ensures IsBuffer(c, c.table[m.node][m.dst].out)
    ensures IsNextOutput(c, m, c.table[m.node][m.dst].out)
    ensures Owner(c, c.table[m.node][m.dst].out) == m.node
  {
    var k: nat :| Remaining(c, m, k);
    assert Linked(c.net, m.node, c.table[m.node][m.dst]);
    var u := c.net.links[LinkOf(c, m.buffer)].src;
    assert Linked(c.net, u, c.table[u][m.dst]);
    assert Forwards(c, u, m.dst);
  }

  lemma CrossSwitch(c: Config, m: Msg, until: int)
    requires ValidConfig(c) && RoutedMsg(c, m) && m.buffer >= |c.net.links| && m.node != m.dst
    ensures m.node < |c.table| && m.dst < |c.table|
    ensures IsBuffer(c, c.table[m.node][m.dst].out)
    ensures RoutedMsg(c, Moved(c, m, c.table[m.node][m.dst].out, until))
  {
    NextOutput(c, m);
    var out := c.table[m.node][m.dst].out;
    var m' := Moved(c, m, out, until);
    var k: nat :| Remaining(c, m, k);
    assert Remaining(c, m', k);
    forall b: nat | IsBuffer(c, b)
      ensures Fits(c, m', b)
    {
      assert Fits(c, m, b);
    }
  }

  // ---- Handlers ----

  lemma HandlesMsg(c: Config, s: State, id: nat)
    requires Inv(c, s, {id})
    ensures id in s.flight && Handles(c, s, id) && RoutedMsg(c, s.flight[id])
    ensures IsHead(s, id) ==> MayDepart(c, s, id)
    ensures s.flight[id].buffer >= |c.net.links| && s.flight[id].node != s.flight[id].dst ==> InTransit(c, s.flight[id])
  {
    assert PlacedMsg(c, s, id) && RoutedMsg(c, s.flight[id]);
    assert Fits(c, s.flight[id], s.flight[id].buffer);
    if s.flight[id].buffer >= |c.net.links| && s.flight[id].node != s.flight[id].dst {
      NextOutput(c, s.flight[id]);
    }
  }

  lemma LatencyPositive(size: nat, bandwidth: nat)
    requires size >= 1 && bandwidth >= 1
    ensures Latency(size, bandwidth) >= 1
  {
  }

  lemma SendOverLinkKeeps(c: Config, s: State, id: nat)
    requires Inv(c, s, {id}) && MayDepart(c, s, id) && s.flight[id].buffer < |c.net.links|
    requires WellFormedLink(c.net, c.net.links[s.flight[id].buffer])
    requires var input := InputOf(c, s.flight[id].buffer);
      s.buffers[input].count + s.flight[id].size <= Capacity(c, input)
    ensures Inv(c, SendOverLink(c, s, id), {})
    ensures Pending(SendOverLink(c, s, id)) == Pending(s) + multiset{Message(id)}
  {
    var m := s.flight[id];
    var l := m.buffer;
    var lat := Latency(m.size, c.net.links[l].bandwidth);
    var until := Until(s.cycle, lat);
    assert PlacedMsg(c, s, id) && RoutedMsg(c, m);
    LatencyPositive(m.size, c.net.links[l].bandwidth);
    CrossLink(c, m, until);
    RelocateKeeps(c, s, id, InputOf(c, l), until);
    var moved := Transfer(c, s, id, InputOf(c, l), until);
    TransmitKeeps(c, moved, l, m.size, lat, {id});
    var t := Transmit(moved, l, m.size, lat);
    assert EventOk(c, t, Event(t.cycle + lat, InputBuffer(id)));
    ScheduleKeeps(c, t, InputBuffer(id), lat);
    SchedulePending(t, InputBuffer(id), lat);
  }

  /** The handler has put the continuation `r` back, once. */
  ghost predicate Resumed(c: Config, s: State, t: State, r: Resume) {
    Inv(c, t, {}) && Pending(t) == Pending(s) + multiset{r.Who()}
  }

  lemma Waits(c: Config, s: State, b: nat, r: Resume)
    requires Inv(c, s, InHand(r)) && b < |s.buffers| && WakeupOk(c, s, b, r)
    ensures Resumed(c, s, Wait(s, b, r), r)
  {
    WaitKeeps(c, s, b, r);
    WaitPending(s, b, r);
  }

  lemma Schedules(c: Config, s: State, r: Resume, after: int)
    requires Inv(c, s, InHand(r)) && EventOk(c, s, Event(s.cycle + after, r))
    ensures Resumed(c, s, Schedule(s, r, after), r)
  {
    ScheduleKeeps(c, s, r, after);
    SchedulePending(s, r, after);
  }

  /** The entries with which an output-buffer handler gives up for now. */
  lemma OutputBlocked(c: Config, s: State, id: nat)
    requires Inv(c, s, {id})
    requires id in s.flight && s.flight[id].buffer < |c.net.links| && s.flight[id].busy < s.cycle
    ensures Handles(c, s, id) && WellFormedLink(c.net, c.net.links[s.flight[id].buffer])
    ensures IsHead(s, id) ==> MayDepart(c, s, id)
    ensures !IsHead(s, id) ==> WakeupOk(c, s, s.flight[id].buffer, OutputBuffer(id))
    ensures var input := InputOf(c, s.flight[id].buffer);
      Owner(c, input) < |c.net.nodes| &&
      (IsHead(s, id) && s.buffers[input].count + s.flight[id].size > Capacity(c, input) ==>
         WakeupOk(c, s, input, OutputBuffer(id)))
    ensures forall busy :: busy >= s.cycle ==> EventOk(c, s, Event(s.cycle + Delay(s.cycle, busy), OutputBuffer(id)))
  {
    HandlesMsg(c, s, id);
    assert WellFormedLink(c.net, c.net.links[s.flight[id].buffer]);
    assert CountedBuffer(c, s, InputOf(c, s.flight[id].buffer));
  }

  lemma OutputStepKeeps(c: Config, s: State, id: nat)
    requires Inv(c, s, {id})
    requires id in s.flight && s.flight[id].buffer < |c.net.links| && s.flight[id].busy < s.cycle
    ensures Handles(c, s, id)
    ensures Resumed(c, s, OutputStep(c, s, id), OutputBuffer(id))
  {
    OutputBlocked(c, s, id);
    var m := s.flight[id];
    var l := m.buffer;
    var input := InputOf(c, l);
    var r := OutputBuffer(id);
    if !IsHead(s, id) {
      Waits(c, s, l, r);
    } else if s.buffers[l].readBusy >= s.cycle {
      Schedules(c, s, r, Delay(s.cycle, s.buffers[l].readBusy));
    } else if s.links[l].busy >= s.cycle {
      Schedules(c, s, r, Delay(s.cycle, s.links[l].busy));
    } else if s.buffers[input].writeBusy >= s.cycle {
      Schedules(c, s, r, Delay(s.cycle, s.buffers[input].writeBusy));
    } else if s.buffers[input].count + m.size > Capacity(c, input) {
      Waits(c, s, input, r);
    } else {
      SendOverLinkKeeps(c, s, id);
      assert Resumed(c, s, SendOverLink(c, s, id), r);
    }
  }

  // The same for the input-buffer handler.

  lemma InputBlocked(c: Config, s: State, id: nat)
    requires Inv(c, s, {id})
    requires id in s.flight && s.flight[id].buffer >= |c.net.links| && s.flight[id].busy < s.cycle
    ensures Handles(c, s, id)
    ensures IsHead(s, id) ==> MayDepart(c, s, id)
    ensures !IsHead(s, id) ==> WakeupOk(c, s, s.flight[id].buffer, InputBuffer(id))
    ensures IsHead(s, id) && s.flight[id].node == s.flight[id].dst ==> EventOk(c, s, Event(s.cycle + 0, Receive(id)))
    ensures s.flight[id].node != s.flight[id].dst ==>
      var m := s.flight[id];
      var out := c.table[m.node][m.dst].out;
      && InTransit(c, m) && c.net.nodes[m.node].bandwidth >= 1
      && IsBuffer(c, out) && out < |c.net.links| && Owner(c, out) == m.node
      && (IsHead(s, id) && s.buffers[out].count + m.size > Capacity(c, out) ==> WakeupOk(c, s, out, InputBuffer(id)))
    ensures forall busy :: busy >= s.cycle ==> EventOk(c, s, Event(s.cycle + Delay(s.cycle, busy), InputBuffer(id)))
    ensures EventOk(c, s, Event(s.cycle + 1, InputBuffer(id)))
  {
    HandlesMsg(c, s, id);
    var m := s.flight[id];
    if m.node != m.dst {
      NextOutput(c, m);
      assert CountedBuffer(c, s, c.table[m.node][m.dst].out);
    }
  }

  lemma SendThroughSwitchKeeps(c: Config, s: State, id: nat)
    requires Inv(c, s, {id}) && MayDepart(c, s, id) && s.flight[id].buffer >= |c.net.links|
    requires s.flight[id].node != s.flight[id].dst
    requires var m := s.flight[id];
      && m.node < |c.table| && m.dst < |c.table|
      && c.net.nodes[m.node].bandwidth >= 1
      && IsBuffer(c, c.table[m.node][m.dst].out) && c.table[m.node][m.dst].out < |c.net.links|
      && Owner(c, c.table[m.node][m.dst].out) == m.node
      && s.buffers[c.table[m.node][m.dst].out].count + m.size <= Capacity(c, c.table[m.node][m.dst].out)
    ensures var out := c.table[s.flight[id].node][s.flight[id].dst].out;
      Resumed(c, s, SendThroughSwitch(c, s, id, out), OutputBuffer(id))
  {
    var m := s.flight[id];
    var out := c.table[m.node][m.dst].out;
    var lat := Latency(m.size, c.net.nodes[m.node].bandwidth);
    var until := Until(s.cycle, lat);
    assert PlacedMsg(c, s, id) && RoutedMsg(c, m);
    LatencyPositive(m.size, c.net.nodes[m.node].bandwidth);
    CrossSwitch(c, m, until);
    RelocateKeeps(c, s, id, out, until);
    InOutputBuffer(c, s, Transfer(c, s, id, out, until), id, lat);
  }

  /** The message that has just entered an output buffer gets its event. */
  lemma InOutputBuffer(c: Config, s: State, t: State, id: nat, lat: int)
    requires Inv(c, t, {id}) && Pending(t) == Pending(s) && lat >= 1
    requires id in t.flight && t.flight[id].buffer < |c.net.links| && t.flight[id].busy == Until(t.cycle, lat)
    ensures Resumed(c, s, Schedule(t, OutputBuffer(id), lat), OutputBuffer(id))
  {
    assert EventOk(c, t, Event(t.cycle + lat, OutputBuffer(id)));
    Schedules(c, t, OutputBuffer(id), lat);
  }

  /** The scheduler's bookkeeping. */
  lemma NodeScheduleKeeps(c: Config, s: State, out: nat, handled: set<nat>)
    requires Inv(c, s, handled) && IsBuffer(c, out) && Owner(c, out) < |c.net.nodes|
    ensures var t := NodeSchedule(c, s, out);
      && Inv(c, t, handled) && Pending(t) == Pending(s)
      && t.flight == s.flight && t.cycle == s.cycle && t.events == s.events
      && |t.buffers| == |s.buffers|
      && (forall b: nat :: b < |s.buffers| ==> SameBuffer(s.buffers[b], t.buffers[b]))
  {
    if s.buffers[out].schedWhen != s.cycle {
      var buffer := s.buffers[out].(schedWhen := s.cycle, schedBuffer := Decide(c, s, out));
      DecisionKeeps(c, s, out, buffer, handled);
    }
  }

  lemma InputStepKeeps(c: Config, s: State, id: nat)
    requires Inv(c, s, {id})
    requires id in s.flight && s.flight[id].buffer >= |c.net.links| && s.flight[id].busy < s.cycle
    ensures Handles(c, s, id) && (s.flight[id].node != s.flight[id].dst ==> InTransit(c, s.flight[id]))
    ensures Resumed(c, s, InputStep(c, s, id), InputBuffer(id))
  {
    InputBlocked(c, s, id);
    var m := s.flight[id];
    var r := InputBuffer(id);
    if !IsHead(s, id) {
      Waits(c, s, m.buffer, r);
    } else if m.node == m.dst {
      Schedules(c, s, Receive(id), 0);
    } else if s.buffers[m.buffer].readBusy >= s.cycle {
      Schedules(c, s, r, Delay(s.cycle, s.buffers[m.buffer].readBusy));
    } else {
      CrossStepKeeps(c, s, id);
    }
  }

  lemma CrossStepKeeps(c: Config, s: State, id: nat)
    requires Inv(c, s, {id})
    requires id in s.flight && s.flight[id].buffer >= |c.net.links| && s.flight[id].busy < s.cycle
    requires Handles(c, s, id) && InTransit(c, s.flight[id]) && IsHead(s, id)
    ensures Resumed(c, s, CrossStep(c, s, id), InputBuffer(id))
  {
    InputBlocked(c, s, id);
    var m := s.flight[id];
    var r := InputBuffer(id);
    var out := c.table[m.node][m.dst].out;
    if s.buffers[out].writeBusy >= s.cycle {
      Schedules(c, s, r, Delay(s.cycle, s.buffers[out].writeBusy));
    } else if s.buffers[out].count + m.size > Capacity(c, out) {
      Waits(c, s, out, r);
    } else {
      ScheduledKeeps(c, s, id, out);
    }
  }

  /** The output buffer is free and has room, so that the node's scheduler decides. */
  lemma ScheduledKeeps(c: Config, s: State, id: nat, out: nat)
    requires Inv(c, s, {id})
    requires id in s.flight && s.flight[id].buffer >= |c.net.links| && s.flight[id].busy < s.cycle
    requires Handles(c, s, id) && InTransit(c, s.flight[id]) && IsHead(s, id)
    requires out == c.table[s.flight[id].node][s.flight[id].dst].out
    requires IsBuffer(c, out) && Owner(c, out) < |c.net.nodes| && s.buffers[out].writeBusy < s.cycle
    requires s.buffers[out].count + s.flight[id].size <= Capacity(c, out)
    ensures Resumed(c, s, CrossStep(c, s, id), InputBuffer(id))
  {
    var t := NodeSchedule(c, s, out);
    AfterScheduling(c, s, id, out);
    if t.buffers[out].schedBuffer != s.flight[id].buffer {
      NotItsTurn(c, s, t, id);
    } else {
      ItsTurn(c, s, t, id, out);
    }
  }

  lemma AfterScheduling(c: Config, s: State, id: nat, out: nat)
    requires Inv(c, s, {id}) && Handles(c, s, id)
    requires IsBuffer(c, out) && Owner(c, out) < |c.net.nodes|
    ensures var t := NodeSchedule(c, s, out);
      && Inv(c, t, {id}) && Pending(t) == Pending(s)
      && t.flight == s.flight && t.cycle == s.cycle && |t.buffers| == |s.buffers|
      && IsHead(t, id) == IsHead(s, id)
      && t.buffers[out].count == s.buffers[out].count
  {
    var t := NodeSchedule(c, s, out);
    NodeScheduleKeeps(c, s, out, {id});
    assert SameBuffer(s.buffers[s.flight[id].buffer], t.buffers[s.flight[id].buffer]);
    assert SameBuffer(s.buffers[out], t.buffers[out]);
  }

  /** The same without the whole invariant, for the head of a buffer. */
  lemma StillDeparts(c: Config, s: State, id: nat, out: nat)
    requires MayDepart(c, s, id) && IsBuffer(c, out) && Owner(c, out) < |c.net.nodes|
    ensures var t := NodeSchedule(c, s, out);
      && MayDepart(c, t, id) && t.flight == s.flight && t.cycle == s.cycle && t.events == s.events
      && t.links == s.links
  {
    assert SameCore(s, NodeSchedule(c, s, out));
    CorePlaced(c, s, NodeSchedule(c, s, out));
  }

  /** What the second half of the input-buffer handler starts from. */
  ghost predicate MayCross(c: Config, s: State, id: nat, out: nat) {
    && Handles(c, s, id) && InTransit(c, s.flight[id]) && MayDepart(c, s, id)
    && s.flight[id].buffer >= |c.net.links|
    && IsNextOutput(c, s.flight[id], out) && Owner(c, out) == s.flight[id].node
    && c.net.nodes[s.flight[id].node].bandwidth >= 1
  }

  lemma CrossingAllowed(c: Config, s: State, id: nat) returns (out: nat)
    requires Inv(c, s, {id}) && id in s.flight && s.flight[id].buffer >= |c.net.links|
    requires IsHead(s, id) && s.flight[id].node != s.flight[id].dst
    ensures MayCross(c, s, id, out)
  {
    HandlesMsg(c, s, id);
    NextOutput(c, s.flight[id]);
    out := c.table[s.flight[id].node][s.flight[id].dst].out;
  }

  lemma NotItsTurn(c: Config, s: State, t: State, id: nat)
    requires Inv(c, t, {id}) && Pending(t) == Pending(s)
    requires id in t.flight && t.flight[id].buffer >= |c.net.links| && t.flight[id].busy < t.cycle
    ensures Resumed(c, s, Schedule(t, InputBuffer(id), 1), InputBuffer(id))
  {
    Schedules(c, t, InputBuffer(id), 1);
  }

  lemma ItsTurn(c: Config, s: State, t: State, id: nat, out: nat)
    requires Inv(c, t, {id}) && Pending(t) == Pending(s)
    requires id in t.flight && t.flight[id].buffer >= |c.net.links| && t.flight[id].busy < t.cycle
    requires Handles(c, t, id) && InTransit(c, t.flight[id]) && IsHead(t, id)
    requires c.table[t.flight[id].node][t.flight[id].dst].out == out
    requires IsBuffer(c, out) && Owner(c, out) < |c.net.nodes|
    requires t.buffers[out].count + t.flight[id].size <= Capacity(c, out)
    ensures c.net.nodes[t.flight[id].node].bandwidth >= 1
    ensures Resumed(c, s, SendThroughSwitch(c, t, id, out), InputBuffer(id))
  {
    InputBlocked(c, t, id);
    SendThroughSwitchKeeps(c, t, id);
  }
}
