/** What an action does to the messages themselves: nothing, or it moves one from
    buffer to buffer, lets one enter, or lets one leave. */
module NetTraffic {
  import opened Topology
  import opened NetState
  import opened NetInvariant
  import opened NetPrimitives
  import opened NetHandlers
  import opened NetRuns

  ghost predicate SameQueues(s: State, t: State, except: set<nat>) {
    && |t.buffers| == |s.buffers|
    && forall b: nat :: b < |s.buffers| && b !in except ==> t.buffers[b].msgs == s.buffers[b].msgs
  }

  /** No message moves. */
  ghost predicate Still(s: State, t: State) {
    && t.flight == s.flight && t.lastId == s.lastId && t.delivered == s.delivered
    && SameQueues(s, t, {})
  }

  /** The head of one buffer becomes the tail of the next on its route. */
  ghost predicate Crosses(c: Config, s: State, t: State, id: nat, to: nat) {
    && Shape(c, s)
    && id in s.flight && IsBuffer(c, s.flight[id].buffer) && IsHead(s, id)
    && var m := s.flight[id];
    && IsBuffer(c, to) && to != m.buffer
    && (if m.buffer < |c.net.links| then to == InputOf(c, m.buffer) else IsNextOutput(c, m, to))
    && id in t.flight
    && t.flight[id] == Moved(c, m, to, t.flight[id].busy)
    && t.flight == s.flight[id := t.flight[id]]
    && t.lastId == s.lastId && t.delivered == s.delivered
    && SameQueues(s, t, {m.buffer, to})
    && t.buffers[m.buffer].msgs == s.buffers[m.buffer].msgs[1..]
    && t.buffers[to].msgs == s.buffers[to].msgs + [id]
  }

  /** A new message becomes the tail of its source's output buffer. */
  ghost predicate Enters(c: Config, s: State, t: State, m: Msg) {
    && t.lastId == s.lastId + 1
    && t.lastId !in s.flight
    && t.flight == s.flight[t.lastId := m]
    && t.delivered == s.delivered
    && m.hops == 0 && m.node == m.src
    && IsNextOutput(c, m, m.buffer)
    && SameQueues(s, t, {m.buffer})
    && m.buffer < |s.buffers|
    && t.buffers[m.buffer].msgs == s.buffers[m.buffer].msgs + [t.lastId]
  }

  /** A message leaves from the head of an input buffer of its destination. */
  ghost predicate Leaves(c: Config, s: State, t: State, id: nat) {
    && Placed(c, s)
    && id in s.flight && Arrived(c, s, id)
    && t.flight == s.flight - {id}
    && t.lastId == s.lastId
    && t.delivered == s.delivered + [(id, s.flight[id])]
    && s.flight[id].buffer < |s.buffers|
    && SameQueues(s, t, {s.flight[id].buffer})
    && s.buffers[s.flight[id].buffer].msgs != []
    && t.buffers[s.flight[id].buffer].msgs == s.buffers[s.flight[id].buffer].msgs[1..]
  }

  ghost predicate Travels(c: Config, s: State, t: State) {
    || Still(s, t)
    || (exists id, to :: Crosses(c, s, t, id, to))
    || (exists id :: Leaves(c, s, t, id))
  }

  lemma TransferCrosses(c: Config, s: State, id: nat, to: nat, until: int, t: State)
    requires MayDepart(c, s, id) && IsBuffer(c, to) && to != s.flight[id].buffer
    requires if s.flight[id].buffer < |c.net.links| then to == InputOf(c, s.flight[id].buffer)
             else IsNextOutput(c, s.flight[id], to)
    requires Still(Transfer(c, s, id, to, until), t)
    ensures Crosses(c, s, t, id, to)
  {
    var m := s.flight[id];
    var a := Vacate(s, id, until);
    var b := Transfer(c, s, id, to, until);
    assert a.flight == s.flight - {id} && a.buffers[m.buffer].msgs == s.buffers[m.buffer].msgs[1..];
    assert b.buffers[to].msgs == s.buffers[to].msgs + [id];
    assert b.flight == s.flight[id := b.flight[id]];
  }

  lemma SendOverLinkTravels(c: Config, s: State, id: nat)
    requires MayDepart(c, s, id) && s.flight[id].buffer < |c.net.links|
    requires c.net.links[s.flight[id].buffer].bandwidth >= 1
    ensures Crosses(c, s, SendOverLink(c, s, id), id, InputOf(c, s.flight[id].buffer))
  {
    var l := s.flight[id].buffer;
    var until := Until(s.cycle, Latency(s.flight[id].size, c.net.links[l].bandwidth));
    TransferCrosses(c, s, id, InputOf(c, l), until, SendOverLink(c, s, id));
  }

  lemma OutputStepTravels(c: Config, s: State, id: nat)
    requires Handles(c, s, id) && (IsHead(s, id) ==> MayDepart(c, s, id))
    requires s.flight[id].buffer < |c.net.links|
    ensures Still(s, OutputStep(c, s, id)) || Crosses(c, s, OutputStep(c, s, id), id, InputOf(c, s.flight[id].buffer))
  {
    assert WellFormedLink(c.net, c.net.links[s.flight[id].buffer]);
    if IsHead(s, id) {
      SendOverLinkTravels(c, s, id);
    }
  }

  lemma InputStepTravels(c: Config, s: State, id: nat)
    requires Inv(c, s, {id})
    requires id in s.flight && s.flight[id].buffer >= |c.net.links|
    ensures Handles(c, s, id) && (s.flight[id].node != s.flight[id].dst ==> InTransit(c, s.flight[id]))
    ensures Still(s, InputStep(c, s, id)) ||
            exists to :: Crosses(c, s, InputStep(c, s, id), id, to)
  {
    HandlesMsg(c, s, id);
    var m := s.flight[id];
    var t := InputStep(c, s, id);
    if IsHead(s, id) && m.node != m.dst && s.buffers[m.buffer].readBusy < s.cycle {
      var out := CrossingAllowed(c, s, id);
      CrossStepTravels(c, s, id, out);
    } else {
      assert Still(s, t);
    }
  }

  lemma CrossStepTravels(c: Config, s: State, id: nat, out: nat)
    requires MayCross(c, s, id, out)
    ensures Still(s, CrossStep(c, s, id)) || Crosses(c, s, CrossStep(c, s, id), id, out)
  {
    if s.buffers[out].writeBusy < s.cycle && s.buffers[out].count + s.flight[id].size <= Capacity(c, out) {
      var d := NodeSchedule(c, s, out);
      StillDeparts(c, s, id, out);
      assert Still(s, d);
      if d.buffers[out].schedBuffer == s.flight[id].buffer {
        SendThroughSwitchTravels(c, d, id, out);
        assert Crosses(c, s, SendThroughSwitch(c, d, id, out), id, out);
      }
    }
  }

  lemma SendThroughSwitchTravels(c: Config, s: State, id: nat, out: nat)
    requires MayDepart(c, s, id) && IsBuffer(c, out) && out != s.flight[id].buffer
    requires s.flight[id].node < |c.net.nodes| && c.net.nodes[s.flight[id].node].bandwidth >= 1
    requires s.flight[id].buffer >= |c.net.links| && IsNextOutput(c, s.flight[id], out)
    ensures Crosses(c, s, SendThroughSwitch(c, s, id, out), id, out)
  {
    var until := Until(s.cycle, Latency(s.flight[id].size, c.net.nodes[s.flight[id].node].bandwidth));
    TransferCrosses(c, s, id, out, until, SendThroughSwitch(c, s, id, out));
  }

  lemma AbsorbLeaves(c: Config, s: State, id: nat)
    requires Inv(c, s, {}) && id in s.awaiting
    ensures MayDepart(c, s, id) && Leaves(c, s, Absorb(s, id), id)
  {
    assert id in s.flight && Arrived(c, s, id) && PlacedMsg(c, s, id);
  }

  lemma ReceiveStepTravels(c: Config, s: State, id: nat)
    requires Inv(c, s, {id}) && id in s.flight && Arrived(c, s, id)
    ensures Handles(c, s, id)
    ensures Still(s, ReceiveStep(c, s, id)) || Leaves(c, s, ReceiveStep(c, s, id), id)
  {
    HandlesMsg(c, s, id);
    AwaitKeeps(c, s, id);
    if !s.flight[id].notify {
      AbsorbLeaves(c, s.(awaiting := s.awaiting + {id}), id);
    }
  }

  lemma HandlerTravels(c: Config, s: State, e: Event)
    requires Inv(c, s, InHand(e.resume)) && EventOk(c, s, e) && e.time == s.cycle
    ensures SafeHandler(c, s, e.resume) && Travels(c, s, Handler(c, s, e.resume))
  {
    HandlerKeeps(c, s, e);
    match e.resume
    case OutputBuffer(id) =>
      HandlesMsg(c, s, id);
      OutputStepTravels(c, s, id);
    case InputBuffer(id) => InputStepTravels(c, s, id);
    case Receive(id) => ReceiveStepTravels(c, s, id);
    case Retry(_) =>
  }

  /** Taking the event out of the heap first makes no difference to the messages. */
  lemma AfterPop(c: Config, s: State, at: nat, t: State)
    requires Placed(c, s) && at < |s.events| && Travels(c, Pop(s, at), t)
    ensures Travels(c, s, t)
  {
    var p := Pop(s, at);
    if Still(p, t) {
      assert Still(s, t);
    } else if exists id, to :: Crosses(c, p, t, id, to) {
      var id, to :| Crosses(c, p, t, id, to);
      assert Crosses(c, s, t, id, to);
    } else {
      var id :| Leaves(c, p, t, id);
      assert Leaves(c, s, t, id);
    }
  }

  /** A send is refused, or the message enters with the sender's label. */
  lemma SendEnters(c: Config, s: State, src: nat, dst: nat, size: nat, notify: bool, tag: nat)
    requires Inv(c, s, {}) && Deliverable(c, src, dst, size)
    ensures var t := TrySend(c, s, src, dst, size, notify, tag);
      || Still(s, t)
      || exists m: Msg :: Enters(c, s, t, m) && m.src == src && m.dst == dst && m.size == size && m.notify == notify
  {
    var out, k := FirstOutput(c, src, dst, size);
    NewIdentifier(c, s);
    var t := TrySend(c, s, src, dst, size, notify, tag);
    if s.buffers[out].writeBusy < s.cycle && s.buffers[out].count + size <= Capacity(c, out) {
      var m := Msg(size, src, dst, src, out, s.cycle, notify, 0);
      assert Enters(c, s, t, m);
    } else {
      assert Still(s, t);
    }
  }

  lemma ActionTravels(c: Config, s: State, a: Action)
    requires Inv(c, s, {}) && Enabled(c, s, a)
    ensures Safe(c, s, a)
    ensures a.Send? || Travels(c, s, Apply(c, s, a))
  {
    ActionKeeps(c, s, a);
    match a
    case Handle(at) =>
      PopKeeps(c, s, at);
      CoreEvent(c, s, Pop(s, at), s.events[at]);
      HandlerTravels(c, Pop(s, at), s.events[at]);
      AfterPop(c, s, at, Apply(c, s, a));
    case Advance =>
      assert Still(s, Tick(c, s));
    case Send(_, _, _, _, _) =>
    case Take(id) =>
      AbsorbLeaves(c, s, id);
  }
}
