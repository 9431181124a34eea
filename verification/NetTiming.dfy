/** Time: what a step makes busy, until when, and when the events that it schedules fall
    due. */
module NetTiming {
  import opened Topology
  import opened NetState
  import opened NetInvariant
  import opened NetPrimitives
  import opened NetHandlers
  import opened NetRuns
  import opened NetAccounting

  function Max(a: int, b: int): int {
    if a < b then b else a
  }

  // ---- What is busy, and what is due ----

  /** Nothing is busy after cycle `h`. */
  ghost predicate FreeBy(s: State, h: int) {
    && (forall b: nat :: b < |s.buffers| ==> s.buffers[b].readBusy <= h && s.buffers[b].writeBusy <= h)
    && (forall l: nat :: l < |s.links| ==> s.links[l].busy <= h)
  }

  /** Every event falls due at the latest when everything is free by cycle `h`, or in the
      next cycle. */
  ghost predicate Due(s: State, h: int) {
    forall i :: 0 <= i < |s.events| ==> s.events[i].time <= Max(h, s.cycle) + 1
  }

  ghost predicate DueKept(s: State, t: State) {
    forall h {:trigger Due(t, h)} :: FreeBy(s, h) && FreeBy(t, h) && Due(s, h) ==> Due(t, h)
  }

  // ---- What one handler does ----

  ghost predicate SamePorts(a: Buffer, b: Buffer) {
    b.msgs == a.msgs && b.count == a.count && b.readBusy == a.readBusy && b.writeBusy == a.writeBusy
  }

  /** No message moves, and nothing becomes busy. */
  ghost predicate Rests(s: State, t: State) {
    && t.cycle == s.cycle && t.flight == s.flight && t.links == s.links
    && |t.buffers| == |s.buffers|
    && forall b: nat :: b < |s.buffers| ==> SamePorts(s.buffers[b], t.buffers[b])
  }

  ghost predicate PortsUntil(a: Buffer, b: Buffer, until: int) {
    && (b.readBusy == a.readBusy || b.readBusy == until)
    && (b.writeBusy == a.writeBusy || b.writeBusy == until)
  }

  ghost predicate BusyUntil(s: State, t: State, until: int) {
    && |t.buffers| == |s.buffers| && |t.links| == |s.links|
    && (forall b: nat :: b < |s.buffers| ==> PortsUntil(s.buffers[b], t.buffers[b], until))
    && (forall l: nat :: l < |s.links| ==> t.links[l].busy == s.links[l].busy || t.links[l].busy == until)
  }

  /** What carries a message on: its link, or the crossbar of its node. */
  ghost function Bandwidth(c: Config, m: Msg): nat {
    if m.buffer < |c.net.links| then c.net.links[m.buffer].bandwidth
    else if m.node < |c.net.nodes| then c.net.nodes[m.node].bandwidth
    else 0
  }

  /** The last cycle of a transfer that starts now. */
  ghost predicate Ends(c: Config, cycle: int, m: Msg, until: int) {
    && Bandwidth(c, m) >= 1 && m.size >= 1
    && until == Until(cycle, Latency(m.size, Bandwidth(c, m)))
  }

  /** The link of a message in an output buffer carries it and counts it. */
  ghost predicate Carries(c: Config, s: State, t: State, m: Msg, until: int) {
    && |s.links| == |t.links| == |c.net.links|
    && if m.buffer < |c.net.links| then
         var k := s.links[m.buffer];
         && k.busy < s.cycle
         && t.links == s.links[m.buffer := LinkState(until, k.busyCycles + (until - s.cycle + 1), k.transferredBytes + m.size)]
       else t.links == s.links
  }

  /** A message moves to its next buffer: it, the two ports and the link were free, and are
      busy until the transfer ends. */
  ghost predicate Shifts(c: Config, s: State, t: State, id: nat, to: nat, until: int) {
    && id in s.flight && IsBuffer(c, s.flight[id].buffer) && IsBuffer(c, to)
    && var m := s.flight[id];
    && (if m.buffer < |c.net.links| then to == InputOf(c, m.buffer) else IsNextOutput(c, m, to))
    && Ends(c, s.cycle, m, until) && s.cycle <= until
    && t.cycle == s.cycle && t.flight == s.flight[id := Moved(c, m, to, until)]
    && BusyUntil(s, t, until) && Carries(c, s, t, m, until)
    && m.buffer < |s.buffers| && to < |s.buffers| && m.busy < s.cycle
    && s.buffers[m.buffer].readBusy < s.cycle && t.buffers[m.buffer].readBusy == until
    && s.buffers[to].writeBusy < s.cycle && t.buffers[to].writeBusy == until
  }

  ghost predicate PortsStay(a: Buffer, b: Buffer) {
    b.readBusy == a.readBusy && b.writeBusy == a.writeBusy
  }

  /** A message leaves, and nothing becomes busy. */
  ghost predicate Goes(s: State, t: State, id: nat) {
    && id in s.flight && t.cycle == s.cycle && t.flight == s.flight - {id}
    && t.links == s.links && |t.buffers| == |s.buffers|
    && forall b: nat :: b < |s.buffers| ==> PortsStay(s.buffers[b], t.buffers[b])
  }

  ghost predicate Outcome(c: Config, s: State, t: State) {
    || Rests(s, t)
    || (exists id, to, until :: Shifts(c, s, t, id, to, until))
    || (exists id :: Goes(s, t, id))
  }

  lemma RestsFree(s: State, t: State, h: int)
    requires Rests(s, t) && FreeBy(s, h)
    ensures FreeBy(t, h)
  {
    forall b: nat | b < |t.buffers|
      ensures t.buffers[b].readBusy <= h && t.buffers[b].writeBusy <= h
    {
      assert SamePorts(s.buffers[b], t.buffers[b]);
    }
  }

  lemma ShiftsFree(c: Config, s: State, t: State, id: nat, to: nat, until: int, h: int)
    requires Shifts(c, s, t, id, to, until) && FreeBy(s, h)
    ensures FreeBy(t, Max(h, until))
  {
    forall b: nat | b < |t.buffers|
      ensures t.buffers[b].readBusy <= Max(h, until) && t.buffers[b].writeBusy <= Max(h, until)
    {
      assert PortsUntil(s.buffers[b], t.buffers[b], until);
    }
  }

  lemma GoesFree(s: State, t: State, id: nat, h: int)
    requires Goes(s, t, id) && FreeBy(s, h)
    ensures FreeBy(t, h)
  {
    forall b: nat | b < |t.buffers|
      ensures t.buffers[b].readBusy <= h && t.buffers[b].writeBusy <= h
    {
      assert PortsStay(s.buffers[b], t.buffers[b]);
    }
  }

  // ---- The handlers ----

  /** The events of `t` are those of `s`, some for this cycle, and perhaps one more. */
  lemma OneMore(s: State, t: State, ws: seq<Resume>, e: Event, h: int)
    requires t.events == s.events + Woken(ws, s.cycle) + [e] && t.cycle == s.cycle
    requires Due(s, h) && e.time <= Max(h, s.cycle) + 1
    ensures Due(t, h)
  {
    var w := Woken(ws, s.cycle);
    forall i | 0 <= i < |t.events|
      ensures t.events[i].time <= Max(h, t.cycle) + 1
    {
      if i < |s.events| {
        assert t.events[i] == s.events[i];
      } else if i < |s.events| + |w| {
        assert t.events[i] == w[i - |s.events|];
      }
    }
  }

  lemma ScheduledDue(s: State, d: State, r: Resume, after: int, h: int)
    requires d.events == s.events && d.cycle == s.cycle && Due(s, h)
    requires s.cycle + after <= Max(h, s.cycle) + 1
    ensures Due(NetState.Schedule(d, r, after), h)
  {
  }

  lemma TransferBusy(c: Config, s: State, id: nat, to: nat, until: int)
    requires MayDepart(c, s, id) && IsBuffer(c, to) && to != s.flight[id].buffer
    ensures BusyUntil(s, Transfer(c, s, id, to, until), until)
    ensures Transfer(c, s, id, to, until).flight == s.flight[id := Moved(c, s.flight[id], to, until)]
    ensures Transfer(c, s, id, to, until).events == s.events + Woken(s.buffers[s.flight[id].buffer].wakeups, s.cycle)
    ensures Transfer(c, s, id, to, until).buffers[s.flight[id].buffer].readBusy == until
    ensures Transfer(c, s, id, to, until).buffers[to].writeBusy == until
    ensures Transfer(c, s, id, to, until).links == s.links
  {
    assert Transfer(c, s, id, to, until).flight == s.flight[id := Moved(c, s.flight[id], to, until)];
  }

  lemma OverLinkShifts(c: Config, s: State, id: nat)
    requires MayDepart(c, s, id) && s.flight[id].buffer < |c.net.links| && Shape(c, s) && s.flight[id].busy < s.cycle
    requires c.net.links[s.flight[id].buffer].bandwidth >= 1
    requires var l := s.flight[id].buffer;
      s.buffers[l].readBusy < s.cycle && s.links[l].busy < s.cycle && s.buffers[InputOf(c, l)].writeBusy < s.cycle
    ensures var until := Until(s.cycle, Latency(s.flight[id].size, c.net.links[s.flight[id].buffer].bandwidth));
      Shifts(c, s, SendOverLink(c, s, id), id, InputOf(c, s.flight[id].buffer), until)
    ensures DueKept(s, SendOverLink(c, s, id))
  {
    assert PlacedMsg(c, s, id);
    var l := s.flight[id].buffer;
    var lat := Latency(s.flight[id].size, c.net.links[l].bandwidth);
    LatencyIsLeast(s.flight[id].size, c.net.links[l].bandwidth);
    TransferBusy(c, s, id, InputOf(c, l), Until(s.cycle, lat));
    TransferredDue(c, s, SendOverLink(c, s, id), id, InputOf(c, l), InputBuffer(id), lat);
  }

  lemma TransferredDue(c: Config, s: State, t: State, id: nat, to: nat, r: Resume, lat: int)
    requires MayDepart(c, s, id) && IsBuffer(c, to) && to != s.flight[id].buffer && lat >= 1
    requires var d := Transfer(c, s, id, to, Until(s.cycle, lat));
      && t.cycle == s.cycle && t.buffers == d.buffers
      && t.events == d.events + [Event(s.cycle + lat, r)]
    ensures DueKept(s, t)
  {
    TransferBusy(c, s, id, to, Until(s.cycle, lat));
    forall h | FreeBy(s, h) && FreeBy(t, h) && Due(s, h)
      ensures Due(t, h)
    {
      OneMore(s, t, s.buffers[s.flight[id].buffer].wakeups, Event(s.cycle + lat, r), h);
    }
  }

  lemma ThroughSwitchShifts(c: Config, s: State, d: State, id: nat, out: nat)
    requires MayCross(c, d, id, out) && Rests(s, d) && d.events == s.events && Shape(c, s) && s.flight[id].busy < s.cycle
    requires s.buffers[s.flight[id].buffer].readBusy < s.cycle && s.buffers[out].writeBusy < s.cycle
    ensures var until := Until(s.cycle, Latency(s.flight[id].size, c.net.nodes[s.flight[id].node].bandwidth));
      Shifts(c, s, SendThroughSwitch(c, d, id, out), id, out, until)
    ensures DueKept(s, SendThroughSwitch(c, d, id, out))
  {
    assert PlacedMsg(c, d, id);
    var lat := Latency(s.flight[id].size, c.net.nodes[s.flight[id].node].bandwidth);
    LatencyIsLeast(s.flight[id].size, c.net.nodes[s.flight[id].node].bandwidth);
    TransferBusy(c, d, id, out, Until(s.cycle, lat));
    var t := SendThroughSwitch(c, d, id, out);
    TransferredDue(c, d, t, id, out, OutputBuffer(id), lat);
    AfterRest(s, d, t, Until(s.cycle, lat));
  }

  lemma AfterRest(s: State, d: State, t: State, until: int)
    requires Rests(s, d) && d.events == s.events && BusyUntil(d, t, until) && DueKept(d, t)
    ensures BusyUntil(s, t, until) && DueKept(s, t)
  {
    forall b: nat | b < |s.buffers|
      ensures PortsUntil(s.buffers[b], t.buffers[b], until)
    {
      assert SamePorts(s.buffers[b], d.buffers[b]) && PortsUntil(d.buffers[b], t.buffers[b], until);
    }
    forall h | FreeBy(s, h) && FreeBy(t, h) && Due(s, h)
      ensures Due(t, h)
    {
      RestsFree(s, d, h);
      assert Due(d, h);
    }
  }

  lemma WaitRests(s: State, b: nat, r: Resume)
    requires b < |s.buffers|
    ensures Rests(s, Wait(s, b, r)) && DueKept(s, Wait(s, b, r))
  {
    forall h | Due(s, h)
      ensures Due(Wait(s, b, r), h)
    {
    }
  }

  lemma ScheduleRests(s: State, d: State, r: Resume, after: int)
    requires Rests(s, d) && d.events == s.events
    requires forall h :: FreeBy(s, h) ==> s.cycle + after <= Max(h, s.cycle) + 1
    ensures Rests(s, NetState.Schedule(d, r, after)) && DueKept(s, NetState.Schedule(d, r, after))
  {
    var t := NetState.Schedule(d, r, after);
    forall b: nat | b < |s.buffers|
      ensures SamePorts(s.buffers[b], t.buffers[b])
    {
      assert SamePorts(s.buffers[b], d.buffers[b]);
    }
    forall h | FreeBy(s, h) && FreeBy(t, h) && Due(s, h)
      ensures Due(t, h)
    {
      ScheduledDue(s, d, r, after, h);
    }
  }

  /** The handler of an event in an output buffer. */
  lemma OutputOutcome(c: Config, s: State, id: nat)
    requires Handles(c, s, id) && (IsHead(s, id) ==> MayDepart(c, s, id))
    requires s.flight[id].buffer < |c.net.links| && s.flight[id].busy < s.cycle
    ensures Outcome(c, s, OutputStep(c, s, id)) && DueKept(s, OutputStep(c, s, id))
  {
    var l := s.flight[id].buffer;
    var input := InputOf(c, l);
    assert WellFormedLink(c.net, c.net.links[l]);
    if !IsHead(s, id) {
      WaitRests(s, l, OutputBuffer(id));
    } else if s.buffers[l].readBusy >= s.cycle {
      ScheduleRests(s, s, OutputBuffer(id), Delay(s.cycle, s.buffers[l].readBusy));
    } else if s.links[l].busy >= s.cycle {
      ScheduleRests(s, s, OutputBuffer(id), Delay(s.cycle, s.links[l].busy));
    } else if s.buffers[input].writeBusy >= s.cycle {
      ScheduleRests(s, s, OutputBuffer(id), Delay(s.cycle, s.buffers[input].writeBusy));
    } else if s.buffers[input].count + s.flight[id].size > Capacity(c, input) {
      WaitRests(s, input, OutputBuffer(id));
    } else {
      OverLinkShifts(c, s, id);
    }
  }

  /** A decision of the scheduler moves nothing. */
  lemma DecisionRests(c: Config, s: State, out: nat)
    requires Shape(c, s) && IsBuffer(c, out) && Owner(c, out) < |c.net.nodes|
    ensures Rests(s, NodeSchedule(c, s, out)) && NodeSchedule(c, s, out).events == s.events
  {
  }

  lemma CrossOutcome(c: Config, s: State, id: nat, out: nat)
    requires MayCross(c, s, id, out) && s.flight[id].busy < s.cycle
    requires s.buffers[s.flight[id].buffer].readBusy < s.cycle
    ensures Outcome(c, s, CrossStep(c, s, id)) && DueKept(s, CrossStep(c, s, id))
  {
    var r := InputBuffer(id);
    if s.buffers[out].writeBusy >= s.cycle {
      ScheduleRests(s, s, r, Delay(s.cycle, s.buffers[out].writeBusy));
    } else if s.buffers[out].count + s.flight[id].size > Capacity(c, out) {
      WaitRests(s, out, r);
    } else {
      var d := NodeSchedule(c, s, out);
      StillDeparts(c, s, id, out);
      DecisionRests(c, s, out);
      if d.buffers[out].schedBuffer != s.flight[id].buffer {
        ScheduleRests(s, d, r, 1);
      } else {
        ThroughSwitchShifts(c, s, d, id, out);
      }
    }
  }

  lemma InputOutcome(c: Config, s: State, id: nat)
    requires Inv(c, s, {id}) && id in s.flight && s.flight[id].buffer >= |c.net.links| && s.flight[id].busy < s.cycle
    ensures Handles(c, s, id) && (s.flight[id].node != s.flight[id].dst ==> InTransit(c, s.flight[id]))
    ensures Outcome(c, s, InputStep(c, s, id)) && DueKept(s, InputStep(c, s, id))
  {
    HandlesMsg(c, s, id);
    var m := s.flight[id];
    if !IsHead(s, id) {
      WaitRests(s, m.buffer, InputBuffer(id));
    } else if m.node == m.dst {
      ScheduleRests(s, s, Receive(id), 0);
    } else if s.buffers[m.buffer].readBusy >= s.cycle {
      ScheduleRests(s, s, InputBuffer(id), Delay(s.cycle, s.buffers[m.buffer].readBusy));
    } else {
      var out := CrossingAllowed(c, s, id);
      CrossOutcome(c, s, id, out);
    }
  }

  lemma AbsorbGoes(s: State, id: nat)
    requires id in s.flight && s.flight[id].buffer < |s.buffers| && IsHead(s, id)
    ensures Goes(s, Absorb(s, id), id) && DueKept(s, Absorb(s, id))
  {
    var t := Absorb(s, id);
    var w := Woken(s.buffers[s.flight[id].buffer].wakeups, s.cycle);
    forall h | Due(s, h)
      ensures Due(t, h)
    {
      forall i | 0 <= i < |t.events|
        ensures t.events[i].time <= Max(h, t.cycle) + 1
      {
        if i >= |s.events| {
          assert t.events[i] == w[i - |s.events|];
        }
      }
    }
  }

  lemma ReceiveOutcome(c: Config, s: State, id: nat)
    requires Handles(c, s, id) && IsHead(s, id)
    ensures Outcome(c, s, ReceiveStep(c, s, id)) && DueKept(s, ReceiveStep(c, s, id))
  {
    var a := s.(awaiting := s.awaiting + {id});
    if s.flight[id].notify {
      assert Rests(s, a);
      assert forall h :: Due(s, h) ==> Due(a, h);
    } else {
      AbsorbGoes(a, id);
      assert Goes(s, Absorb(a, id), id);
      SameDue(s, a, Absorb(a, id));
    }
  }

  lemma SameDue(s: State, a: State, t: State)
    requires a.buffers == s.buffers && a.links == s.links && a.cycle == s.cycle && DueKept(a, t)
    requires forall i :: 0 <= i < |a.events| ==> a.events[i] in s.events
    ensures DueKept(s, t)
  {
    forall h | FreeBy(s, h) && FreeBy(t, h) && Due(s, h)
      ensures Due(t, h)
    {
      assert FreeBy(a, h) && Due(a, h);
    }
  }

  lemma HandlerOutcome(c: Config, s: State, e: Event)
    requires Inv(c, s, InHand(e.resume)) && EventOk(c, s, e) && e.time == s.cycle
    ensures SafeHandler(c, s, e.resume)
    ensures Outcome(c, s, Handler(c, s, e.resume)) && DueKept(s, Handler(c, s, e.resume))
  {
    HandlerKeeps(c, s, e);
    match e.resume
    case OutputBuffer(id) =>
      HandlesMsg(c, s, id);
      OutputOutcome(c, s, id);
    case InputBuffer(id) => InputOutcome(c, s, id);
    case Receive(id) => ReceiveOutcome(c, s, id);
    case Retry(_) => assert Rests(s, s);
  }

  lemma SamePop(c: Config, s: State, at: nat, t: State)
    requires at < |s.events| && Outcome(c, Pop(s, at), t) && DueKept(Pop(s, at), t)
    ensures Outcome(c, s, t) && DueKept(s, t)
  {
    var p := Pop(s, at);
    SameDue(s, p, t);
    if Rests(p, t) {
      assert Rests(s, t);
    } else if id, to, until :| Shifts(c, p, t, id, to, until) {
      assert Shifts(c, s, t, id, to, until);
    } else {
      var id :| Goes(p, t, id);
      assert Goes(s, t, id);
    }
  }

  /** Handling an event or taking a message. */
  lemma ActionOutcome(c: Config, s: State, a: Action)
    requires Inv(c, s, {}) && Enabled(c, s, a) && (a.Handle? || a.Take?)
    ensures Safe(c, s, a)
    ensures Outcome(c, s, Apply(c, s, a)) && DueKept(s, Apply(c, s, a))
  {
    ActionKeeps(c, s, a);
    match a
    case Handle(at) =>
      PopKeeps(c, s, at);
      CoreEvent(c, s, Pop(s, at), s.events[at]);
      HandlerOutcome(c, Pop(s, at), s.events[at]);
      SamePop(c, s, at, Apply(c, s, a));
    case Take(id) =>
      AbsorbKeeps(c, s, id);
      AbsorbGoes(s, id);
  }

  // ---- Transfers in a run ----

  /** A message in flight is in another buffer after the step. */
  ghost predicate Crossed(s: State, t: State, id: nat) {
    id in s.flight && id in t.flight && t.flight[id].buffer != s.flight[id].buffer
  }

  /** The message, the two ports and, from an output buffer, the link were free, and they
      are all busy for the least number of cycles that the bytes need at the bandwidth of
      the link or of the crossbar. The link counts exactly these cycles and bytes. */
  ghost predicate Transfers(c: Config, s: State, t: State, m: Msg, m': Msg) {
    && IsBuffer(c, m.buffer) && IsBuffer(c, m'.buffer) && m.size >= 1
    && m.buffer < |s.buffers| == |t.buffers| && m'.buffer < |s.buffers|
    && m.busy < s.cycle && s.buffers[m.buffer].readBusy < s.cycle && s.buffers[m'.buffer].writeBusy < s.cycle
    && s.cycle <= m'.busy && LeastCycles(m.size, Bandwidth(c, m), m'.busy - s.cycle + 1)
    && t.buffers[m.buffer].readBusy == m'.busy && t.buffers[m'.buffer].writeBusy == m'.busy
    && Carries(c, s, t, m, m'.busy)
  }

  /** So it is whenever a message moves from one buffer to the next. */
  lemma CrossingTakes(c: Config, states: seq<State>, actions: seq<Action>, k: nat, id: nat)
    requires Run(c, states, actions) && k < |actions| && Crossed(states[k], states[k + 1], id)
    ensures Transfers(c, states[k], states[k + 1], states[k].flight[id], states[k + 1].flight[id])
  {
    SafeAt(c, states, actions, k);
    StepTransfers(c, states[k], actions[k], states[k + 1], id);
  }

  lemma StepTransfers(c: Config, s: State, a: Action, t: State, id: nat)
    requires Inv(c, s, {}) && Step(c, s, a, t) && Crossed(s, t, id)
    ensures Transfers(c, s, t, s.flight[id], t.flight[id])
  {
    if a.Handle? || a.Take? {
      ActionOutcome(c, s, a);
      CrossedIsShift(c, s, t, id);
    } else if a.Send? {
      NotCrossedBySend(c, s, a.src, a.dst, a.size, a.notify, a.tag, id);
    }
  }

  lemma NotCrossedBySend(c: Config, s: State, src: nat, dst: nat, size: nat, notify: bool, tag: nat, id: nat)
    requires Inv(c, s, {}) && Deliverable(c, src, dst, size)
    ensures !Crossed(s, TrySend(c, s, src, dst, size, notify, tag), id)
  {
    NewIdentifier(c, s);
    SendOutcome(c, s, src, dst, size, notify, tag);
  }

  lemma CrossedIsShift(c: Config, s: State, t: State, id: nat)
    requires Outcome(c, s, t) && Crossed(s, t, id)
    ensures Transfers(c, s, t, s.flight[id], t.flight[id])
  {
    if x, to, until :| Shifts(c, s, t, x, to, until) {
      ShiftTransfers(c, s, t, x, to, until, id);
    }
  }

  lemma ShiftTransfers(c: Config, s: State, t: State, x: nat, to: nat, until: int, id: nat)
    requires Shifts(c, s, t, x, to, until) && Crossed(s, t, id)
    ensures Transfers(c, s, t, s.flight[id], t.flight[id])
  {
    assert x == id;
    LatencyIsLeast(s.flight[id].size, Bandwidth(c, s.flight[id]));
  }

  /** Two messages that cross from the same buffer do so in disjoint intervals of cycles:
      the later one starts after the last cycle of the earlier one. */
  lemma CrossingsAreDisjoint(c: Config, states: seq<State>, actions: seq<Action>, j: nat, k: nat, x: nat, y: nat)
    requires Run(c, states, actions) && j < k < |actions|
    requires Crossed(states[j], states[j + 1], x) && Crossed(states[k], states[k + 1], y)
    requires states[j].flight[x].buffer == states[k].flight[y].buffer
             || states[j + 1].flight[x].buffer == states[k + 1].flight[y].buffer
    ensures states[j].cycle <= states[j + 1].flight[x].busy < states[k].cycle
  {
    CrossingTakes(c, states, actions, j, x);
    CrossingTakes(c, states, actions, k, y);
    BusyGrows(c, states, actions, j + 1, k);
    LaterThan(c, states[j], states[j + 1], states[k], states[k + 1], x, y);
  }

  lemma LaterThan(c: Config, s: State, t: State, u: State, v: State, x: nat, y: nat)
    requires Crossed(s, t, x) && Transfers(c, s, t, s.flight[x], t.flight[x])
    requires Crossed(u, v, y) && Transfers(c, u, v, u.flight[y], v.flight[y]) && NoEarlier(t, u)
    requires s.flight[x].buffer == u.flight[y].buffer || t.flight[x].buffer == v.flight[y].buffer
    ensures s.cycle <= t.flight[x].busy < u.cycle
  {
  }
}
