/** What the crossbar scheduler grants, and that a grant is for a message whose turn comes
    in the same cycle: no event of a message lies further ahead than what it waits for. */
module NetGrants {
  import opened Sequences
  import opened Topology
  import opened NetState
  import opened NetInvariant
  import opened NetPrimitives
  import opened NetHandlers
  import opened NetRuns
  import opened NetAccounting
  import opened NetArbiter
  import opened NetTiming
  import opened NetDrain

  // ---- When events are due ----

  /** The event is for this cycle or an earlier one, or for the first cycle after the busy
      cycles of something that its message needs, or for the cycle after a decision of the
      scheduler that it has asked. */
  ghost predicate OnTime(c: Config, s: State, e: Event) {
    match e.resume
    case OutputBuffer(id) =>
      || e.time <= s.cycle
      || (&& id in s.flight
          && var m := s.flight[id];
          && m.buffer < |c.net.links| && |s.buffers| == 2 * |c.net.links| && |s.links| == |c.net.links|
          && (|| e.time <= m.busy + 1
              || e.time <= s.buffers[m.buffer].readBusy + 1
              || e.time <= s.links[m.buffer].busy + 1
              || e.time <= s.buffers[InputOf(c, m.buffer)].writeBusy + 1))
    case InputBuffer(id) =>
      || e.time <= s.cycle
      || (&& id in s.flight && s.flight[id].buffer < |s.buffers|
          && var m := s.flight[id];
          && (|| e.time <= m.busy + 1
              || e.time <= s.buffers[m.buffer].readBusy + 1
              || exists out: nat :: AheadOf(c, s, m, out, e.time)))
    case Receive(_) => e.time <= s.cycle
    case Retry(_) => true
  }

  /** What holds a message up at its next output buffer. */
  ghost predicate AheadOf(c: Config, s: State, m: Msg, out: nat, time: int) {
    && out < |s.buffers| && IsNextOutput(c, m, out)
    && (time <= s.buffers[out].writeBusy + 1 || (time <= s.cycle + 1 && s.buffers[out].schedWhen == s.cycle))
  }

  ghost predicate AllOnTime(c: Config, s: State) {
    forall e :: e in s.events ==> OnTime(c, s, e)
  }

  /** Nothing that events wait for becomes free earlier. */
  ghost predicate NoSooner(s: State, t: State) {
    && NoEarlier(s, t) && t.cycle == s.cycle
    && forall b: nat :: b < |s.buffers| && s.buffers[b].schedWhen == s.cycle ==> t.buffers[b].schedWhen == t.cycle
  }

  lemma StaysOnTime(c: Config, s: State, t: State, e: Event)
    requires OnTime(c, s, e) && NoSooner(s, t)
    requires !e.resume.Retry? && e.resume.id in s.flight ==> e.resume.id in t.flight && t.flight[e.resume.id] == s.flight[e.resume.id]
    ensures OnTime(c, t, e)
  {
    if e.resume.InputBuffer? && e.time > s.cycle {
      var m := s.flight[e.resume.id];
      if out: nat :| AheadOf(c, s, m, out, e.time) {
        assert AheadOf(c, t, m, out, e.time);
      }
    }
  }

  /** What one handler adds. */
  ghost predicate AddsOnTime(c: Config, s: State, t: State) {
    forall e :: e in t.events ==> e in s.events || OnTime(c, t, e)
  }

  lemma AddOne(c: Config, s: State, t: State, ws: seq<Resume>, e: Event)
    requires t.events == s.events + Woken(ws, s.cycle) + [e] && t.cycle == s.cycle && OnTime(c, t, e)
    ensures AddsOnTime(c, s, t)
  {
    var w := Woken(ws, s.cycle);
    forall x | x in t.events
      ensures x in s.events || OnTime(c, t, x)
    {
      if x in w {
        var i :| 0 <= i < |w| && w[i] == x;
        assert x.time == t.cycle;
      }
    }
  }

  /** Only message `id` may be elsewhere. */
  ghost predicate Touches(s: State, t: State, id: nat) {
    forall x :: x in s.flight && x != id ==> x in t.flight && t.flight[x] == s.flight[x]
  }

  lemma OverLinkOnTime(c: Config, s: State, id: nat)
    requires MayDepart(c, s, id) && s.flight[id].buffer < |c.net.links|
    requires c.net.links[s.flight[id].buffer].bandwidth >= 1
    ensures AddsOnTime(c, s, SendOverLink(c, s, id)) && Touches(s, SendOverLink(c, s, id), id)
  {
    var l := s.flight[id].buffer;
    var lat := Latency(s.flight[id].size, c.net.links[l].bandwidth);
    TransferBusy(c, s, id, InputOf(c, l), Until(s.cycle, lat));
    AddOne(c, s, SendOverLink(c, s, id), s.buffers[l].wakeups, Event(s.cycle + lat, InputBuffer(id)));
  }

  lemma AddLast(c: Config, s: State, t: State, e: Event)
    requires t.events == s.events + [e] && t.flight == s.flight && OnTime(c, t, e)
    ensures AddsOnTime(c, s, t) && forall id :: Touches(s, t, id)
  {
  }

  lemma OutputOnTime(c: Config, s: State, id: nat)
    requires Handles(c, s, id) && (IsHead(s, id) ==> MayDepart(c, s, id))
    requires s.flight[id].buffer < |c.net.links| && s.flight[id].busy < s.cycle
    ensures AddsOnTime(c, s, OutputStep(c, s, id)) && Touches(s, OutputStep(c, s, id), id)
  {
    var l := s.flight[id].buffer;
    var input := InputOf(c, l);
    var t, r := OutputStep(c, s, id), OutputBuffer(id);
    assert WellFormedLink(c.net, c.net.links[l]);
    if IsHead(s, id) {
      if s.buffers[l].readBusy >= s.cycle {
        AddLast(c, s, t, Event(s.buffers[l].readBusy + 1, r));
      } else if s.links[l].busy >= s.cycle {
        AddLast(c, s, t, Event(s.links[l].busy + 1, r));
      } else if s.buffers[input].writeBusy >= s.cycle {
        AddLast(c, s, t, Event(s.buffers[input].writeBusy + 1, r));
      } else if s.buffers[input].count + s.flight[id].size <= Capacity(c, input) {
        OverLinkOnTime(c, s, id);
      }
    }
  }

  /** The message will be tried again when its next output buffer lets it. */
  lemma HeldUp(c: Config, s: State, t: State, id: nat, out: nat, time: int)
    requires t.events == s.events + [Event(time, InputBuffer(id))] && t.cycle == s.cycle && t.flight == s.flight
    requires id in s.flight && s.flight[id].buffer < |t.buffers| && AheadOf(c, t, s.flight[id], out, time)
    ensures AddsOnTime(c, s, t) && Touches(s, t, id)
  {
    assert OnTime(c, t, Event(time, InputBuffer(id)));
  }

  lemma CrossOnTime(c: Config, s: State, id: nat, out: nat)
    requires MayCross(c, s, id, out) && s.flight[id].busy < s.cycle
    ensures AddsOnTime(c, s, CrossStep(c, s, id)) && Touches(s, CrossStep(c, s, id), id)
  {
    if s.buffers[out].writeBusy >= s.cycle {
      var t := CrossStep(c, s, id);
      HeldUp(c, s, t, id, out, s.buffers[out].writeBusy + 1);
    } else if s.buffers[out].count + s.flight[id].size <= Capacity(c, out) {
      AskOnTime(c, s, id, out);
    }
  }

  lemma AskOnTime(c: Config, s: State, id: nat, out: nat)
    requires MayCross(c, s, id, out)
    ensures var d := NodeSchedule(c, s, out);
      && MayDepart(c, d, id) && d.flight == s.flight
      && (d.buffers[out].schedBuffer != s.flight[id].buffer ==>
            var t := NetState.Schedule(d, InputBuffer(id), 1); AddsOnTime(c, s, t) && Touches(s, t, id))
      && (d.buffers[out].schedBuffer == s.flight[id].buffer ==>
            var t := SendThroughSwitch(c, d, id, out); AddsOnTime(c, s, t) && Touches(s, t, id))
  {
    var d := NodeSchedule(c, s, out);
    StillDeparts(c, s, id, out);
    DecisionRests(c, s, out);
    if d.buffers[out].schedBuffer != s.flight[id].buffer {
      var t := NetState.Schedule(d, InputBuffer(id), 1);
      assert t.buffers[out].schedWhen == t.cycle;
      HeldUp(c, s, t, id, out, s.cycle + 1);
    } else {
      ThroughSwitchOnTime(c, s, d, id, out);
    }
  }

  lemma ThroughSwitchOnTime(c: Config, s: State, d: State, id: nat, out: nat)
    requires MayCross(c, d, id, out) && Rests(s, d) && d.events == s.events
    ensures AddsOnTime(c, s, SendThroughSwitch(c, d, id, out)) && Touches(s, SendThroughSwitch(c, d, id, out), id)
  {
    var lat := Latency(d.flight[id].size, c.net.nodes[d.flight[id].node].bandwidth);
    TransferBusy(c, d, id, out, Until(s.cycle, lat));
    AddOne(c, s, SendThroughSwitch(c, d, id, out), d.buffers[d.flight[id].buffer].wakeups, Event(s.cycle + lat, OutputBuffer(id)));
  }

  lemma InputOnTime(c: Config, s: State, id: nat)
    requires Inv(c, s, {id}) && id in s.flight && s.flight[id].buffer >= |c.net.links| && s.flight[id].busy < s.cycle
    ensures Handles(c, s, id) && (s.flight[id].node != s.flight[id].dst ==> InTransit(c, s.flight[id]))
    ensures AddsOnTime(c, s, InputStep(c, s, id)) && Touches(s, InputStep(c, s, id), id)
  {
    HandlesMsg(c, s, id);
    var m := s.flight[id];
    if IsHead(s, id) && m.node != m.dst && s.buffers[m.buffer].readBusy < s.cycle {
      var out := CrossingAllowed(c, s, id);
      CrossOnTime(c, s, id, out);
    }
  }

  lemma AbsorbOnTime(c: Config, s: State, id: nat)
    requires id in s.flight && s.flight[id].buffer < |s.buffers| && IsHead(s, id)
    ensures AddsOnTime(c, s, Absorb(s, id)) && Touches(s, Absorb(s, id), id)
  {
    var t := Absorb(s, id);
    var w := Woken(s.buffers[s.flight[id].buffer].wakeups, s.cycle);
    forall x | x in t.events
      ensures x in s.events || OnTime(c, t, x)
    {
      if x in w {
        var i :| 0 <= i < |w| && w[i] == x;
        assert x.time == t.cycle;
      }
    }
  }

  lemma ReceiveOnTime(c: Config, s: State, id: nat)
    requires Handles(c, s, id) && IsHead(s, id)
    ensures AddsOnTime(c, s, ReceiveStep(c, s, id)) && Touches(s, ReceiveStep(c, s, id), id)
  {
    if !s.flight[id].notify {
      AbsorbOnTime(c, s.(awaiting := s.awaiting + {id}), id);
    }
  }

  lemma HandlerOnTime(c: Config, s: State, e: Event)
    requires Inv(c, s, InHand(e.resume)) && EventOk(c, s, e) && e.time == s.cycle
    ensures SafeHandler(c, s, e.resume)
    ensures AddsOnTime(c, s, Handler(c, s, e.resume))
    ensures if e.resume.Retry? then Handler(c, s, e.resume) == s else Touches(s, Handler(c, s, e.resume), e.resume.id)
  {
    HandlerKeeps(c, s, e);
    match e.resume
    case OutputBuffer(id) =>
      HandlesMsg(c, s, id);
      OutputOnTime(c, s, id);
    case InputBuffer(id) => InputOnTime(c, s, id);
    case Receive(id) => ReceiveOnTime(c, s, id);
    case Retry(_) =>
  }

  lemma SendOnTime(c: Config, s: State, src: nat, dst: nat, size: nat, notify: bool, tag: nat)
    requires Inv(c, s, {}) && Deliverable(c, src, dst, size)
    ensures AddsOnTime(c, s, TrySend(c, s, src, dst, size, notify, tag))
    ensures Touches(s, TrySend(c, s, src, dst, size, notify, tag), s.lastId + 1)
  {
    NewIdentifier(c, s);
    SendOutcome(c, s, src, dst, size, notify, tag);
    var out, k := FirstOutput(c, src, dst, size);
    assert WellFormedLink(c.net, c.net.links[out]);
  }

  // ---- In every run ----

  lemma ActionNoSooner(c: Config, s: State, a: Action)
    requires Inv(c, s, {}) && Enabled(c, s, a) && !a.Advance? && Timely(s)
    ensures Safe(c, s, a) && NoSooner(s, Apply(c, s, a))
  {
    ActionServes(c, s, a);
    var t := Apply(c, s, a);
    ServesNoEarlier(c, s, t);
    forall b: nat | b < |s.buffers| && s.buffers[b].schedWhen == s.cycle
      ensures t.buffers[b].schedWhen == t.cycle
    {
      assert WellFormedLink(c.net, c.net.links[LinkOf(c, b)]);
      ActionDecides(c, s, a, b);
    }
  }

  /** A step that touches one message, which has no other event. */
  lemma OthersOnTime(c: Config, s: State, p: State, t: State, id: nat)
    requires AllOnTime(c, s) && NoSooner(s, t) && p.flight == s.flight && AddsOnTime(c, p, t) && Touches(p, t, id)
    requires forall e :: e in p.events ==> e in s.events
    requires forall i :: 0 <= i < |p.events| ==> p.events[i].resume.Who() != Message(id)
    ensures AllOnTime(c, t)
  {
    forall e | e in t.events
      ensures OnTime(c, t, e)
    {
      if e in p.events {
        StaysOnTime(c, s, t, e);
      }
    }
  }

  lemma ActionOnTime(c: Config, s: State, a: Action)
    requires Inv(c, s, {}) && Enabled(c, s, a) && AllOnTime(c, s) && Timely(s)
    ensures Safe(c, s, a) && AllOnTime(c, Apply(c, s, a))
  {
    if a.Advance? {
      ActionKeeps(c, s, a);
      TickOnTime(c, s);
    } else {
      ActionNoSooner(c, s, a);
      var t := Apply(c, s, a);
      match a
      case Handle(at) => HandleOnTime(c, s, at);
      case Send(src, dst, size, notify, tag) =>
        SendOnTime(c, s, src, dst, size, notify, tag);
        NewIdentifier(c, s);
        NoEventYet(c, s, s.lastId + 1);
        OthersOnTime(c, s, s, t, s.lastId + 1);
      case Take(id) =>
        AbsorbOnTime(c, s, id);
        NoEventYet(c, s, id);
        OthersOnTime(c, s, s, t, id);
    }
  }

  lemma NoEventYet(c: Config, s: State, id: nat)
    requires Inv(c, s, {}) && (id in s.flight ==> id in s.awaiting)
    ensures forall i :: 0 <= i < |s.events| ==> s.events[i].resume.Who() != Message(id)
  {
    assert ConservedMsg(s, {}, id);
    NoEntry(s, id);
  }

  lemma HandleOnTime(c: Config, s: State, at: nat)
    requires Inv(c, s, {}) && Enabled(c, s, Handle(at)) && Safe(c, s, Handle(at)) && AllOnTime(c, s)
    requires NoSooner(s, Apply(c, s, Handle(at)))
    ensures AllOnTime(c, Apply(c, s, Handle(at)))
  {
    var p, e := Pop(s, at), s.events[at];
    PopKeeps(c, s, at);
    CoreEvent(c, s, p, e);
    HandlerOnTime(c, p, e);
    if !e.resume.Retry? {
      assert ConservedMsg(p, InHand(e.resume), e.resume.id);
      NoEntry(p, e.resume.id);
      OthersOnTime(c, s, p, Apply(c, s, Handle(at)), e.resume.id);
    } else {
      SameOnTime(c, s, p);
    }
  }

  lemma SameOnTime(c: Config, s: State, t: State)
    requires AllOnTime(c, s) && NoSooner(s, t) && t.flight == s.flight
    requires forall e :: e in t.events ==> e in s.events
    ensures AllOnTime(c, t)
  {
    forall e | e in t.events
      ensures OnTime(c, t, e)
    {
      StaysOnTime(c, s, t, e);
    }
  }

  lemma TickOnTime(c: Config, s: State)
    requires Shape(c, s) && AllOnTime(c, s)
    ensures AllOnTime(c, Tick(c, s))
  {
    var t := Tick(c, s);
    forall e | e in t.events
      ensures OnTime(c, t, e)
    {
      assert OnTime(c, s, e);
      if e.resume.InputBuffer? && e.time > t.cycle {
        var m := s.flight[e.resume.id];
        if out: nat :| AheadOf(c, s, m, out, e.time) {
          assert AheadOf(c, t, m, out, e.time);
        }
      }
    }
  }

  lemma {:induction false} RunsAreOnTime(c: Config, states: seq<State>, actions: seq<Action>, k: nat)
    requires Run(c, states, actions) && k <= |actions|
    ensures AllOnTime(c, states[k])
    decreases k
  {
    if k > 0 {
      RunsAreOnTime(c, states, actions, k - 1);
      RunsAreTimely(c, states, actions, k - 1);
      SafeAt(c, states, actions, k - 1);
      ActionOnTime(c, states[k - 1], actions[k - 1]);
    }
  }

  // ---- Grants ----

  /** The head of input buffer `b` has arrived, can be read, and finds room in output
      buffer `out`, to which the table sends it. */
  ghost predicate Ready(c: Config, s: State, out: nat, b: nat) {
    && |c.net.links| <= b < |s.buffers| == 2 * |c.net.links|
    && out < |c.net.links| && Owner(c, b) == Owner(c, out) < |c.net.nodes|
    && s.buffers[b].msgs != [] && s.buffers[b].msgs[0] in s.flight && s.buffers[b].readBusy < s.cycle
    && var m := s.flight[s.buffers[b].msgs[0]];
    && m.busy < s.cycle && IsNextOutput(c, m, out)
    && s.buffers[out].count + m.size <= Capacity(c, out)
  }

  /** Ready is what makes an input buffer eligible, in a switch. */
  lemma ReadyIsGrantable(c: Config, s: State, out: nat, b: nat)
    requires Inv(c, s, {}) && out < |c.net.links| && Owner(c, out) < |c.net.nodes|
    requires c.net.nodes[Owner(c, out)].kind == Switch && s.buffers[out].writeBusy < s.cycle
    ensures Ready(c, s, out, b) <==> Grantable(c, s, out, b)
  {
    if Grantable(c, s, out, b) {
      GrantedIsHead(c, s, out, b);
    }
    if Ready(c, s, out, b) {
      assert PlacedBuffer(s, b) && PlacedMsg(c, s, s.buffers[b].msgs[0]);
    }
  }

  /** Whenever the scheduler decides in a run, it grants somebody exactly when the output
      buffer can be written and some input buffer of the node is ready; whoever it grants
      is ready, and has its event in this very cycle. */
  lemma GrantsAreExact(c: Config, states: seq<State>, actions: seq<Action>, k: nat, out: nat)
    requires Run(c, states, actions) && k < |actions| && IsBuffer(c, out) && Decides(states[k], states[k + 1], out)
    ensures var s, g := states[k], states[k + 1].buffers[out].schedBuffer;
      && (g != NONE <==> s.buffers[out].writeBusy < s.cycle && exists b: nat :: Ready(c, s, out, b))
      && (g != NONE ==> g >= 0 && Ready(c, s, out, g) && Event(s.cycle, InputBuffer(s.buffers[g].msgs[0])) in s.events)
  {
    RunDecides(c, states, actions, k, out);
    SafeAt(c, states, actions, k);
    RunsAreOnTime(c, states, actions, k);
    DecisionGrants(c, states[k], out);
  }

  lemma DecisionGrants(c: Config, s: State, out: nat)
    requires Inv(c, s, {}) && AllOnTime(c, s) && out < |c.net.links| && Owner(c, out) < |c.net.nodes|
    requires c.net.nodes[Owner(c, out)].kind == Switch && s.buffers[out].schedWhen != s.cycle
    ensures var g := Decide(c, s, out);
      && (g != NONE <==> s.buffers[out].writeBusy < s.cycle && exists b: nat :: Ready(c, s, out, b))
      && (g != NONE ==> g >= 0 && Ready(c, s, out, g) && Event(s.cycle, InputBuffer(s.buffers[g].msgs[0])) in s.events)
  {
    var g := Decide(c, s, out);
    if s.buffers[out].writeBusy < s.cycle {
      if b: nat :| Ready(c, s, out, b) {
        ReadyIsGrantable(c, s, out, b);
        DecisionIsExact(c, s, out, b);
      }
      if g != NONE {
        DecisionIsExact(c, s, out, 0);
        ReadyIsGrantable(c, s, out, g);
        ReadyHasEvent(c, s, out, g);
      }
    }
  }

  lemma ReadyHasEvent(c: Config, s: State, out: nat, g: nat)
    requires Inv(c, s, {}) && AllOnTime(c, s) && Ready(c, s, out, g)
    requires s.buffers[out].writeBusy < s.cycle && s.buffers[out].schedWhen != s.cycle
    ensures Event(s.cycle, InputBuffer(s.buffers[g].msgs[0])) in s.events
  {
    var id := s.buffers[g].msgs[0];
    assert PlacedBuffer(s, g);
    HeadWaitsForRoom(c, s, id, out);
    var i := HasEvent(c, s, id, {});
    assert EventOk(c, s, s.events[i]);
    assert OnTime(c, s, s.events[i]);
  }

  // ---- Delays ----

  /** The event is for the first cycle in which the resource that held the message up is
      free, or for the cycle after the scheduler has turned it down. */
  ghost predicate HeldBy(c: Config, s: State, t: State, e: Event) {
    match e.resume
    case OutputBuffer(id) =>
      && id in s.flight && s.flight[id].buffer < |c.net.links| && |s.buffers| == 2 * |c.net.links| && |s.links| == |c.net.links|
      && e.time > s.cycle
      && var l := s.flight[id].buffer;
      || e.time == s.buffers[l].readBusy + 1
      || e.time == s.links[l].busy + 1
      || e.time == s.buffers[InputOf(c, l)].writeBusy + 1
    case InputBuffer(id) =>
      && id in s.flight && s.flight[id].buffer < |s.buffers|
      && e.time > s.cycle
      && (|| e.time == s.buffers[s.flight[id].buffer].readBusy + 1
          || exists out: nat :: HeldAt(c, s, t, s.flight[id], out, e.time))
    case Receive(_) => e.time == s.cycle
    case Retry(_) => false
  }

  ghost predicate HeldAt(c: Config, s: State, t: State, m: Msg, out: nat, time: int) {
    && out < |s.buffers| == |t.buffers| && IsNextOutput(c, m, out)
    && (|| time == s.buffers[out].writeBusy + 1
        || (time == s.cycle + 1 && t.buffers[out].schedWhen == s.cycle && t.buffers[out].schedBuffer != m.buffer))
  }

  ghost predicate AddsHeld(c: Config, s: State, t: State) {
    forall e :: e in t.events ==> e in s.events || HeldBy(c, s, t, e)
  }

  lemma AddHeld(c: Config, s: State, t: State, e: Event)
    requires t.events == s.events + [e] && HeldBy(c, s, t, e)
    ensures AddsHeld(c, s, t)
  {
  }

  lemma OutputHeld(c: Config, s: State, id: nat)
    requires Handles(c, s, id) && (IsHead(s, id) ==> MayDepart(c, s, id)) && s.flight[id].buffer < |c.net.links|
    requires Rests(s, OutputStep(c, s, id))
    ensures AddsHeld(c, s, OutputStep(c, s, id))
  {
    var l := s.flight[id].buffer;
    var input := InputOf(c, l);
    var t, r := OutputStep(c, s, id), OutputBuffer(id);
    assert WellFormedLink(c.net, c.net.links[l]);
    if IsHead(s, id) {
      if s.buffers[l].readBusy >= s.cycle {
        AddHeld(c, s, t, Event(s.buffers[l].readBusy + 1, r));
      } else if s.links[l].busy >= s.cycle {
        AddHeld(c, s, t, Event(s.links[l].busy + 1, r));
      } else if s.buffers[input].writeBusy >= s.cycle {
        AddHeld(c, s, t, Event(s.buffers[input].writeBusy + 1, r));
      }
    }
  }

  lemma CrossHeld(c: Config, s: State, id: nat, out: nat)
    requires MayCross(c, s, id, out) && s.flight[id].busy < s.cycle && Rests(s, CrossStep(c, s, id))
    requires s.buffers[s.flight[id].buffer].readBusy < s.cycle
    ensures AddsHeld(c, s, CrossStep(c, s, id))
  {
    var r := InputBuffer(id);
    if s.buffers[out].writeBusy >= s.cycle {
      var t := CrossStep(c, s, id);
      assert HeldAt(c, s, t, s.flight[id], out, s.buffers[out].writeBusy + 1);
      AddHeld(c, s, t, Event(s.buffers[out].writeBusy + 1, r));
    } else if s.buffers[out].count + s.flight[id].size <= Capacity(c, out) {
      TurnedDown(c, s, id, out);
      var t := NetState.Schedule(NodeSchedule(c, s, out), r, 1);
      assert HeldAt(c, s, t, s.flight[id], out, s.cycle + 1);
      AddHeld(c, s, t, Event(s.cycle + 1, r));
    }
  }

  lemma InputHeld(c: Config, s: State, id: nat)
    requires Inv(c, s, {id}) && id in s.flight && s.flight[id].buffer >= |c.net.links| && s.flight[id].busy < s.cycle
    requires Handles(c, s, id) && (s.flight[id].node != s.flight[id].dst ==> InTransit(c, s.flight[id]))
    requires Rests(s, InputStep(c, s, id))
    ensures AddsHeld(c, s, InputStep(c, s, id))
  {
    HandlesMsg(c, s, id);
    var m := s.flight[id];
    if IsHead(s, id) {
      var t := InputStep(c, s, id);
      if m.node == m.dst {
        AddHeld(c, s, t, Event(s.cycle, Receive(id)));
      } else if s.buffers[m.buffer].readBusy >= s.cycle {
        AddHeld(c, s, t, Event(s.buffers[m.buffer].readBusy + 1, InputBuffer(id)));
      } else {
        var out := CrossingAllowed(c, s, id);
        CrossHeld(c, s, id, out);
      }
    }
  }

  /** A message that an event finds held up is tried again in the first cycle in which
      what held it up is free, neither earlier nor later; one that has arrived is handed
      to its receiver at once. */
  lemma DelaysAreExact(c: Config, states: seq<State>, actions: seq<Action>, k: nat)
    requires Run(c, states, actions) && k < |actions| && actions[k].Handle? && Rests(states[k], states[k + 1])
    ensures var at := actions[k].at;
      at < |states[k].events| && AddsHeld(c, Pop(states[k], at), states[k + 1])
  {
    SafeAt(c, states, actions, k);
    var s, at := states[k], actions[k].at;
    var p, e := Pop(s, at), s.events[at];
    PopKeeps(c, s, at);
    CoreEvent(c, s, p, e);
    HandlerHeld(c, p, e, states[k + 1]);
  }

  lemma HandlerHeld(c: Config, s: State, e: Event, t: State)
    requires Inv(c, s, InHand(e.resume)) && EventOk(c, s, e) && e.time == s.cycle
    requires SafeHandler(c, s, e.resume) && t == Handler(c, s, e.resume) && Rests(s, t)
    ensures AddsHeld(c, s, t)
  {
    match e.resume
    case OutputBuffer(id) =>
      HandlesMsg(c, s, id);
      OutputHeld(c, s, id);
    case InputBuffer(id) => InputHeld(c, s, id);
    case Receive(id) =>
      assert id in t.flight;
    case Retry(_) =>
  }
}
