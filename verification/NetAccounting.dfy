/** Time and volume: links and buffer ports serve one message at a time, and the
    counters the network reports are exact. */
module NetAccounting {
  import opened Topology
  import opened NetState
  import opened NetInvariant
  import opened NetPrimitives
  import opened NetHandlers
  import opened NetRuns

  // ---- What one action may do ----

  /** A resource stays as it is, or a free one is taken from this cycle on. */
  ghost predicate Taken(cycle: int, before: int, after: int) {
    before < cycle <= after
  }

  ghost predicate PortStep(cycle: int, before: int, after: int) {
    after == before || Taken(cycle, before, after)
  }

  /** A link stays as it is, or a free link carries some bytes during the cycles from
      this one to its new busy cycle, no more than its bandwidth in each. */
  ghost predicate LinkStep(cycle: int, bandwidth: int, before: LinkState, after: LinkState) {
    || after == before
    || (&& Taken(cycle, before.busy, after.busy)
        && after.busyCycles == before.busyCycles + (after.busy - cycle + 1)
        && before.transferredBytes <= after.transferredBytes
        && after.transferredBytes <= before.transferredBytes + bandwidth * (after.busy - cycle + 1))
  }

  /** What the accumulator will show when it is next brought up to date. */
  function Integral(b: Buffer, cycle: int): int {
    b.occupancyAcc + b.occupancyValue * (cycle - b.occupancyCycle)
  }

  ghost predicate BufferStep(cycle: int, before: Buffer, after: Buffer) {
    && PortStep(cycle, before.readBusy, after.readBusy)
    && PortStep(cycle, before.writeBusy, after.writeBusy)
    && Integral(after, cycle) == Integral(before, cycle)
    && (before.occupancyValue == before.count ==> after.occupancyValue == after.count)
  }

  ghost predicate Serves(c: Config, s: State, t: State) {
    && Shape(c, s) && Shape(c, t)
    && t.cycle == s.cycle && t.held == s.held
    && (forall b: nat :: b < |s.buffers| ==> BufferStep(s.cycle, s.buffers[b], t.buffers[b]))
    && (forall l: nat :: l < |s.links| ==> LinkStep(s.cycle, c.net.links[l].bandwidth, s.links[l], t.links[l]))
  }

  lemma InsertServes(b: Buffer, id: nat, size: nat, cycle: int, busy: int)
    requires b.writeBusy < cycle <= busy
    ensures BufferStep(cycle, b, Insert(b, id, size, cycle).(writeBusy := busy))
  {
  }

  lemma ExtractServes(b: Buffer, size: nat, cycle: int, busy: int)
    requires b.msgs != [] && b.readBusy < cycle <= busy
    ensures BufferStep(cycle, b, Extract(b, size, cycle).(readBusy := busy))
    ensures BufferStep(cycle, b, Extract(b, size, cycle))
  {
  }

  lemma WaitServes(c: Config, s: State, b: nat, r: Resume)
    requires Shape(c, s) && b < |s.buffers|
    ensures Serves(c, s, Wait(s, b, r))
  {
  }

  lemma ScheduleServes(c: Config, s: State, t: State)
    requires Shape(c, s) && t == s.(events := t.events)
    ensures Serves(c, s, t)
  {
  }

  /** `n` cycles are enough for a message, and one less is not. */
  predicate LeastCycles(size: int, bandwidth: int, n: int) {
    bandwidth * (n - 1) < size <= bandwidth * n
  }

  /** A transfer takes the least number of cycles that its bytes need. */
  lemma LatencyIsLeast(size: nat, bandwidth: nat)
    requires size >= 1 && bandwidth >= 1
    ensures Latency(size, bandwidth) >= 1
    ensures LeastCycles(size, bandwidth, Latency(size, bandwidth))
  {
    var q := (size - 1) / bandwidth;
    assert size - 1 == q * bandwidth + (size - 1) % bandwidth;
    assert bandwidth * (q + 1) == q * bandwidth + bandwidth;
  }

  lemma TransferServes(c: Config, s: State, id: nat, to: nat, until: int)
    requires MayDepart(c, s, id) && IsBuffer(c, to) && to != s.flight[id].buffer
    requires s.buffers[s.flight[id].buffer].readBusy < s.cycle <= until
    requires s.buffers[to].writeBusy < s.cycle
    ensures Serves(c, s, Transfer(c, s, id, to, until))
  {
    var m := s.flight[id];
    ExtractServes(s.buffers[m.buffer], m.size, s.cycle, until);
    InsertServes(s.buffers[to], id, m.size, s.cycle, until);
  }

  /** A free link carries a message that is being transferred. */
  lemma LinkServes(c: Config, s: State, d: State, t: State, l: nat, size: nat, lat: int)
    requires Serves(c, s, d) && d.links == s.links && l < |c.net.links| && s.links[l].busy < s.cycle
    requires lat >= 1 && size <= c.net.links[l].bandwidth * lat
    requires t == Transmit(d, l, size, lat).(events := t.events)
    ensures Serves(c, s, t)
  {
    assert LinkStep(s.cycle, c.net.links[l].bandwidth, s.links[l], t.links[l]);
  }

  lemma OverLinkServes(c: Config, s: State, id: nat)
    requires ValidConfig(c) && MayDepart(c, s, id) && s.flight[id].buffer < |c.net.links|
    requires c.net.links[s.flight[id].buffer].bandwidth >= 1
    requires var l := s.flight[id].buffer;
      s.buffers[l].readBusy < s.cycle && s.links[l].busy < s.cycle && s.buffers[InputOf(c, l)].writeBusy < s.cycle
    ensures Serves(c, s, SendOverLink(c, s, id))
  {
    var l := s.flight[id].buffer;
    var size := s.flight[id].size;
    assert PlacedMsg(c, s, id);
    LatencyIsLeast(size, c.net.links[l].bandwidth);
    var lat := Latency(size, c.net.links[l].bandwidth);
    TransferServes(c, s, id, InputOf(c, l), Until(s.cycle, lat));
    var until := Until(s.cycle, lat);
    LinkServes(c, s, Transfer(c, s, id, InputOf(c, l), until), SendOverLink(c, s, id), l, size, lat);
  }

  lemma OutputStepServes(c: Config, s: State, id: nat)
    requires Handles(c, s, id) && (IsHead(s, id) ==> MayDepart(c, s, id))
    requires s.flight[id].buffer < |c.net.links|
    ensures Serves(c, s, OutputStep(c, s, id))
  {
    var l := s.flight[id].buffer;
    var input := InputOf(c, l);
    assert WellFormedLink(c.net, c.net.links[l]);
    if !IsHead(s, id) {
      WaitServes(c, s, l, OutputBuffer(id));
    } else if s.buffers[l].readBusy < s.cycle && s.links[l].busy < s.cycle && s.buffers[input].writeBusy < s.cycle {
      if s.buffers[input].count + s.flight[id].size > Capacity(c, input) {
        WaitServes(c, s, input, OutputBuffer(id));
      } else {
        OverLinkServes(c, s, id);
      }
    } else {
      ScheduleServes(c, s, OutputStep(c, s, id));
    }
  }

  lemma NodeScheduleServes(c: Config, s: State, out: nat)
    requires Shape(c, s) && IsBuffer(c, out) && Owner(c, out) < |c.net.nodes|
    ensures Serves(c, s, NodeSchedule(c, s, out))
    ensures forall b: nat :: b < |s.buffers| ==>
      var x, y := s.buffers[b], NodeSchedule(c, s, out).buffers[b];
      x.readBusy == y.readBusy && x.writeBusy == y.writeBusy
  {
  }

  lemma CrossStepServes(c: Config, s: State, id: nat, out: nat)
    requires MayCross(c, s, id, out) && s.buffers[s.flight[id].buffer].readBusy < s.cycle
    ensures Serves(c, s, CrossStep(c, s, id))
  {
    if s.buffers[out].writeBusy < s.cycle {
      if s.buffers[out].count + s.flight[id].size > Capacity(c, out) {
        WaitServes(c, s, out, InputBuffer(id));
      } else {
        NodeScheduleServes(c, s, out);
        StillDeparts(c, s, id, out);
        ThroughSwitchServes(c, s, NodeSchedule(c, s, out), id, out);
      }
    } else {
      ScheduleServes(c, s, CrossStep(c, s, id));
    }
  }

  lemma ThroughSwitchServes(c: Config, s: State, t: State, id: nat, out: nat)
    requires MayDepart(c, t, id) && t.flight[id].buffer >= |c.net.links| && out < |c.net.links|
    requires t.flight[id].node < |c.net.nodes| && c.net.nodes[t.flight[id].node].bandwidth >= 1
    requires t.buffers[t.flight[id].buffer].readBusy < t.cycle && t.buffers[out].writeBusy < t.cycle
    requires Serves(c, s, t)
    requires forall b: nat :: b < |s.buffers| ==>
      s.buffers[b].readBusy == t.buffers[b].readBusy && s.buffers[b].writeBusy == t.buffers[b].writeBusy
    requires t.links == s.links
    ensures Serves(c, s, SendThroughSwitch(c, t, id, out))
  {
    assert PlacedMsg(c, t, id);
    LatencyIsLeast(t.flight[id].size, c.net.nodes[t.flight[id].node].bandwidth);
    var lat := Latency(t.flight[id].size, c.net.nodes[t.flight[id].node].bandwidth);
    TransferServes(c, t, id, out, Until(t.cycle, lat));
    var u := SendThroughSwitch(c, t, id, out);
    forall b: nat | b < |s.buffers|
      ensures BufferStep(s.cycle, s.buffers[b], u.buffers[b])
    {
      assert BufferStep(s.cycle, s.buffers[b], t.buffers[b]) && BufferStep(s.cycle, t.buffers[b], u.buffers[b]);
    }
  }

  lemma InputStepServes(c: Config, s: State, id: nat)
    requires Inv(c, s, {id}) && id in s.flight && s.flight[id].buffer >= |c.net.links|
    ensures Handles(c, s, id) && (s.flight[id].node != s.flight[id].dst ==> InTransit(c, s.flight[id]))
    ensures Serves(c, s, InputStep(c, s, id))
  {
    HandlesMsg(c, s, id);
    var m := s.flight[id];
    if !IsHead(s, id) {
      WaitServes(c, s, m.buffer, InputBuffer(id));
    } else if m.node != m.dst && s.buffers[m.buffer].readBusy < s.cycle {
      var out := CrossingAllowed(c, s, id);
      CrossStepServes(c, s, id, out);
    } else {
      ScheduleServes(c, s, InputStep(c, s, id));
    }
  }

  lemma AbsorbServes(c: Config, s: State, id: nat)
    requires Shape(c, s) && id in s.flight && s.flight[id].buffer < |s.buffers| && IsHead(s, id)
    ensures Serves(c, s, Absorb(s, id))
  {
  }

  lemma ReceiveStepServes(c: Config, s: State, id: nat)
    requires Handles(c, s, id) && IsHead(s, id)
    ensures Serves(c, s, ReceiveStep(c, s, id))
  {
    if !s.flight[id].notify {
      AbsorbServes(c, s.(awaiting := s.awaiting + {id}), id);
    }
  }

  lemma SendServes(c: Config, s: State, src: nat, dst: nat, size: nat, notify: bool, tag: nat)
    requires Inv(c, s, {}) && Deliverable(c, src, dst, size)
    ensures Serves(c, s, TrySend(c, s, src, dst, size, notify, tag))
  {
    var out, k := FirstOutput(c, src, dst, size);
    if s.buffers[out].writeBusy < s.cycle {
      if s.buffers[out].count + size > Capacity(c, out) {
        WaitServes(c, s, out, Retry(tag));
      } else {
        InsertServes(s.buffers[out], s.lastId + 1, size, s.cycle, s.cycle);
      }
    }
  }

  lemma HandlerServes(c: Config, s: State, e: Event)
    requires Inv(c, s, InHand(e.resume)) && EventOk(c, s, e) && e.time == s.cycle
    ensures SafeHandler(c, s, e.resume) && Serves(c, s, Handler(c, s, e.resume))
  {
    HandlerKeeps(c, s, e);
    match e.resume
    case OutputBuffer(id) =>
      HandlesMsg(c, s, id);
      OutputStepServes(c, s, id);
    case InputBuffer(id) => InputStepServes(c, s, id);
    case Receive(id) => ReceiveStepServes(c, s, id);
    case Retry(_) => ScheduleServes(c, s, s);
  }

  lemma ActionServes(c: Config, s: State, a: Action)
    requires Inv(c, s, {}) && Enabled(c, s, a)
    ensures Safe(c, s, a)
    ensures if a.Advance? then Apply(c, s, a) == Tick(c, s) else Serves(c, s, Apply(c, s, a))
  {
    ActionKeeps(c, s, a);
    match a
    case Handle(at) =>
      PopKeeps(c, s, at);
      CoreEvent(c, s, Pop(s, at), s.events[at]);
      HandlerServes(c, Pop(s, at), s.events[at]);
    case Advance =>
    case Send(src, dst, size, notify, tag) =>
      SendServes(c, s, src, dst, size, notify, tag);
    case Take(id) =>
      AbsorbKeeps(c, s, id);
      AbsorbServes(c, s, id);
  }

  // ---- The counters ----

  /** What a link reports: it was busy for at most the cycles that have passed or are
      already spoken for, and carried at most its bandwidth in each of them. */
  ghost predicate LinkCounts(bandwidth: int, k: LinkState) {
    && 0 <= k.busyCycles <= k.busy
    && 0 <= k.transferredBytes <= bandwidth * k.busyCycles
  }

  /** What a buffer reports: the accumulated occupancy is its count summed over the
      elapsed cycles, and at most its capacity in each of them. */
  ghost predicate BufferCounts(capacity: int, b: Buffer, held: int, cycle: int) {
    && b.occupancyValue == b.count
    && Integral(b, cycle) == held
    && 0 <= held <= capacity * (cycle - 1)
  }

  ghost predicate Counts(c: Config, s: State)
    requires ValidConfig(c) && Shape(c, s)
  {
    && (forall l: nat :: l < |s.links| ==> LinkCounts(c.net.links[l].bandwidth, s.links[l]))
    && (forall b: nat :: b < |s.buffers| ==> BufferCountsAt(c, s, b))
  }

  ghost predicate BufferCountsAt(c: Config, s: State, b: nat)
    requires Shape(c, s) && b < |s.buffers|
  {
    Owner(c, b) < |c.net.nodes| && BufferCounts(Capacity(c, b), s.buffers[b], s.held[b], s.cycle)
  }

  lemma LinkStepCounts(cycle: int, bandwidth: int, before: LinkState, after: LinkState)
    requires LinkCounts(bandwidth, before) && LinkStep(cycle, bandwidth, before, after)
    ensures LinkCounts(bandwidth, after)
  {
    if after != before {
      var lat := after.busy - cycle + 1;
      assert bandwidth * (before.busyCycles + lat) == bandwidth * before.busyCycles + bandwidth * lat;
    }
  }

  lemma ServesCounts(c: Config, s: State, t: State)
    requires ValidConfig(c) && Shape(c, s) && Counts(c, s) && Serves(c, s, t)
    ensures Counts(c, t)
  {
    forall l: nat | l < |t.links|
      ensures LinkCounts(c.net.links[l].bandwidth, t.links[l])
    {
      LinkStepCounts(s.cycle, c.net.links[l].bandwidth, s.links[l], t.links[l]);
    }
    forall b: nat | b < |t.buffers|
      ensures BufferCountsAt(c, t, b)
    {
      assert BufferCountsAt(c, s, b) && BufferStep(s.cycle, s.buffers[b], t.buffers[b]);
    }
  }

  lemma TickBuffer(b: Buffer, capacity: int, held: int, cycle: int)
    requires BufferCounts(capacity, b, held, cycle) && 0 <= b.count <= capacity
    ensures BufferCounts(capacity, b, held + b.count, cycle + 1)
  {
    var d := cycle - b.occupancyCycle;
    assert b.occupancyValue * (d + 1) == b.occupancyValue * d + b.occupancyValue;
    assert capacity * (cycle - 1 + 1) == capacity * (cycle - 1) + capacity;
  }

  lemma TickCounts(c: Config, s: State)
    requires ValidConfig(c) && Shape(c, s) && Counted(c, s) && Counts(c, s)
    ensures Counts(c, Tick(c, s))
  {
    var t := Tick(c, s);
    forall b: nat | b < |t.buffers|
      ensures BufferCountsAt(c, t, b)
    {
      assert BufferCountsAt(c, s, b) && CountedBuffer(c, s, b);
      TickBuffer(s.buffers[b], Capacity(c, b), s.held[b], s.cycle);
    }
  }

  lemma InitialCounts(c: Config)
    requires ValidConfig(c)
    ensures Counts(c, Initial(c))
  {
    var s := Initial(c);
    forall b: nat | b < |s.buffers|
      ensures BufferCountsAt(c, s, b)
    {
      assert WellFormedLink(c.net, c.net.links[LinkOf(c, b)]);
    }
  }

  /** In every state of every run the counters are exact and within their bounds, and
      no buffer holds more than its capacity. */
  lemma {:induction false} RunsCount(c: Config, states: seq<State>, actions: seq<Action>)
    requires Run(c, states, actions)
    ensures Shape(c, states[|actions|])
    ensures Counts(c, states[|actions|]) && Counted(c, states[|actions|])
  {
    var n := |actions|;
    RunsAreSafe(c, states, actions);
    if n == 0 {
      InitialCounts(c);
    } else {
      Prefix(c, states, actions, n - 1);
      RunsCount(c, states[..n], actions[..n - 1]);
      SafeAt(c, states, actions, n - 1);
      ActionServes(c, states[n - 1], actions[n - 1]);
      if actions[n - 1].Advance? {
        TickCounts(c, states[n - 1]);
      } else {
        ServesCounts(c, states[n - 1], states[n]);
      }
    }
  }

  // ---- One message at a time ----

  /** The clock moves, and nothing else. */
  ghost predicate Ticks(c: Config, s: State, t: State) {
    Shape(c, s) && Shape(c, t) && t.buffers == s.buffers && t.links == s.links
  }

  lemma RunStep(c: Config, states: seq<State>, actions: seq<Action>, k: nat)
    requires Run(c, states, actions) && k < |actions|
    ensures Serves(c, states[k], states[k + 1]) || Ticks(c, states[k], states[k + 1])
  {
    SafeAt(c, states, actions, k);
    ActionServes(c, states[k], actions[k]);
  }

  /** No busy cycle moves back. */
  ghost predicate NoEarlier(s: State, t: State) {
    && |t.buffers| == |s.buffers| && |t.links| == |s.links|
    && (forall l: nat :: l < |s.links| ==> s.links[l].busy <= t.links[l].busy)
    && (forall b: nat :: b < |s.buffers| ==>
          s.buffers[b].readBusy <= t.buffers[b].readBusy && s.buffers[b].writeBusy <= t.buffers[b].writeBusy)
  }

  lemma ServesNoEarlier(c: Config, s: State, t: State)
    requires Serves(c, s, t)
    ensures NoEarlier(s, t)
  {
    forall l: nat | l < |s.links|
      ensures s.links[l].busy <= t.links[l].busy
    {
      assert LinkStep(s.cycle, c.net.links[l].bandwidth, s.links[l], t.links[l]);
    }
    forall b: nat | b < |s.buffers|
      ensures s.buffers[b].readBusy <= t.buffers[b].readBusy && s.buffers[b].writeBusy <= t.buffers[b].writeBusy
    {
      assert BufferStep(s.cycle, s.buffers[b], t.buffers[b]);
    }
  }

  lemma StepNoEarlier(c: Config, states: seq<State>, actions: seq<Action>, k: nat)
    requires Run(c, states, actions) && k < |actions|
    ensures NoEarlier(states[k], states[k + 1])
  {
    RunStep(c, states, actions, k);
    if Serves(c, states[k], states[k + 1]) {
      ServesNoEarlier(c, states[k], states[k + 1]);
    }
  }

  lemma {:induction false} BusyGrows(c: Config, states: seq<State>, actions: seq<Action>, j: nat, k: nat)
    requires Run(c, states, actions) && j <= k <= |actions|
    ensures NoEarlier(states[j], states[k])
    decreases k
  {
    if j < k {
      BusyGrows(c, states, actions, j, k - 1);
      StepNoEarlier(c, states, actions, k - 1);
    }
  }

  /** The step starts a transfer over the link; it lasts until the link's busy cycle. */
  ghost predicate Starts(s: State, t: State, l: nat) {
    l < |s.links| && l < |t.links| && t.links[l] != s.links[l]
  }

  /** The step starts to read from the buffer, or to write to it. */
  ghost predicate Reads(s: State, t: State, b: nat) {
    b < |s.buffers| && b < |t.buffers| && t.buffers[b].readBusy != s.buffers[b].readBusy
  }

  ghost predicate Writes(s: State, t: State, b: nat) {
    b < |s.buffers| && b < |t.buffers| && t.buffers[b].writeBusy != s.buffers[b].writeBusy
  }

  /** Two transfers over the same link occupy disjoint intervals: the later one starts
      after the last cycle of the earlier one. */
  lemma TransfersAreDisjoint(c: Config, states: seq<State>, actions: seq<Action>, j: nat, k: nat, l: nat)
    requires Run(c, states, actions) && j < k < |actions| && l < |c.net.links|
    requires Starts(states[j], states[j + 1], l) && Starts(states[k], states[k + 1], l)
    ensures states[j].cycle <= states[j + 1].links[l].busy < states[k].cycle <= states[k + 1].links[l].busy
  {
    BusyGrows(c, states, actions, j + 1, k);
    RunStep(c, states, actions, j);
    RunStep(c, states, actions, k);
    assert LinkStep(states[j].cycle, c.net.links[l].bandwidth, states[j].links[l], states[j + 1].links[l]);
    assert LinkStep(states[k].cycle, c.net.links[l].bandwidth, states[k].links[l], states[k + 1].links[l]);
  }

  /** The same for the two ports of a buffer. */
  lemma ReadsAreDisjoint(c: Config, states: seq<State>, actions: seq<Action>, j: nat, k: nat, b: nat)
    requires Run(c, states, actions) && j < k < |actions| && IsBuffer(c, b)
    requires Reads(states[j], states[j + 1], b) && Reads(states[k], states[k + 1], b)
    ensures states[j].cycle <= states[j + 1].buffers[b].readBusy < states[k].cycle <= states[k + 1].buffers[b].readBusy
  {
    BusyGrows(c, states, actions, j + 1, k);
    RunStep(c, states, actions, j);
    RunStep(c, states, actions, k);
    assert BufferStep(states[j].cycle, states[j].buffers[b], states[j + 1].buffers[b]);
    assert BufferStep(states[k].cycle, states[k].buffers[b], states[k + 1].buffers[b]);
  }

  lemma WritesAreDisjoint(c: Config, states: seq<State>, actions: seq<Action>, j: nat, k: nat, b: nat)
    requires Run(c, states, actions) && j < k < |actions| && IsBuffer(c, b)
    requires Writes(states[j], states[j + 1], b) && Writes(states[k], states[k + 1], b)
    ensures states[j].cycle <= states[j + 1].buffers[b].writeBusy < states[k].cycle <= states[k + 1].buffers[b].writeBusy
  {
    BusyGrows(c, states, actions, j + 1, k);
    RunStep(c, states, actions, j);
    RunStep(c, states, actions, k);
    assert BufferStep(states[j].cycle, states[j].buffers[b], states[j + 1].buffers[b]);
    assert BufferStep(states[k].cycle, states[k].buffers[b], states[k + 1].buffers[b]);
  }
}
