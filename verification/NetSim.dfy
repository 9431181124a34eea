/** The simulator's objects, updated in place. Each method is tied to the step function
    of NetState that it implements, and keeps the invariant. */
module NetSim {
  import opened Sequences
  import opened Topology
  import opened NetState
  import opened NetInvariant
  import opened NetPrimitives
  import opened NetHandlers
  import opened NetRuns
  import opened NetCycle

  /** The event-driven simulator: the clock and the heap of events. */
  class Simulator {
    var cycle: int
    var events: seq<Event>

    constructor ()
      ensures cycle == 1 && events == []
    {
      cycle := 1;
      events := [];
    }

    method ScheduleEvent(r: Resume, after: int)
      requires after >= 0
      modifies this`events
      ensures events == old(events) + [Event(cycle + after, r)]
    {
      events := events + [Event(cycle + after, r)];
    }
  }

  /** A finite buffer at one end of a link. */
  class NetBuffer {
    const esim: Simulator
    const size: nat
    var count: int
    var readBusy: int
    var writeBusy: int
    var msgs: seq<nat>
    var wakeups: seq<Resume>
    var schedWhen: int
    var schedBuffer: int
    var occupancyValue: int
    var occupancyCycle: int
    var occupancyAcc: int

    constructor (esim: Simulator, size: nat)
      ensures this.esim == esim && this.size == size
      ensures View() == InitialBuffer()
    {
      this.esim := esim;
      this.size := size;
      count, readBusy, writeBusy := 0, 0, 0;
      msgs, wakeups := [], [];
      schedWhen, schedBuffer := 0, NONE;
      occupancyValue, occupancyCycle, occupancyAcc := 0, 0, 0;
    }

    ghost function View(): Buffer
      reads this
    {
      Buffer(count, readBusy, writeBusy, msgs, wakeups, schedWhen, schedBuffer,
             occupancyValue, occupancyCycle, occupancyAcc)
    }

    method UpdateOccupancy()
      modifies this
      ensures View() == NetState.UpdateOccupancy(old(View()), esim.cycle)
    {
      var cycles := esim.cycle - occupancyCycle;
      occupancyAcc := occupancyAcc + occupancyValue * cycles;
      occupancyValue := count;
      occupancyCycle := esim.cycle;
    }

    method Insert(id: nat, msgSize: nat)
      requires count + msgSize <= size
      modifies this
      ensures View() == NetState.Insert(old(View()), id, msgSize, esim.cycle)
    {
      count := count + msgSize;
      msgs := msgs + [id];
      UpdateOccupancy();
    }

    method Extract(id: nat, msgSize: nat)
      requires msgs != [] && msgs[0] == id && count >= msgSize
      modifies this, esim`events
      ensures View() == NetState.Extract(old(View()), msgSize, esim.cycle)
      ensures esim.events == old(esim.events) + Woken(old(wakeups), esim.cycle)
    {
      count := count - msgSize;
      msgs := msgs[1..];
      UpdateOccupancy();
      Wakeup();
    }

    method Wait(r: Resume)
      requires count > 0
      modifies this`wakeups
      ensures View() == old(View()).(wakeups := old(wakeups) + [r])
    {
      wakeups := wakeups + [r];
    }

    /** Schedule everything that waits, oldest first, and forget it. */
    method Wakeup()
      modifies this`wakeups, esim`events
      ensures View() == old(View()).(wakeups := [])
      ensures esim.events == old(esim.events) + Woken(old(wakeups), esim.cycle)
    {
      ghost var done: nat := 0;
      assert old(esim.events) + Woken(old(wakeups)[..0], esim.cycle) == esim.events;
      while wakeups != []
        invariant done <= |old(wakeups)| && wakeups == old(wakeups)[done..]
        invariant esim.events == old(esim.events) + Woken(old(wakeups)[..done], esim.cycle)
        decreases |wakeups|
      {
        var r := wakeups[0];
        wakeups := wakeups[1..];
        esim.ScheduleEvent(r, 0);
        done := done + 1;
        assert Woken(old(wakeups)[..done], esim.cycle)
            == Woken(old(wakeups)[..done - 1], esim.cycle) + [Event(esim.cycle, r)];
      }
      assert old(wakeups)[..done] == old(wakeups);
    }
  }

  class NetLink {
    const bandwidth: nat
    var busy: int
    var busyCycles: int
    var transferredBytes: int

    constructor (bandwidth: nat)
      ensures this.bandwidth == bandwidth && View() == LinkState(0, 0, 0)
    {
      this.bandwidth := bandwidth;
      busy, busyCycles, transferredBytes := 0, 0, 0;
    }

    ghost function View(): LinkState
      reads this
    {
      LinkState(busy, busyCycles, transferredBytes)
    }
  }

  /** A network with its table computed. The ghost fields record what the environment
      sees: messages announced but not yet taken, deliveries, and counts over time. */
  class Network {
    const config: Config
    const esim: Simulator
    const buffers: seq<NetBuffer>
    const links: seq<NetLink>
    var flight: map<nat, Msg>
    var lastId: nat
    ghost var awaiting: set<nat>
    ghost var delivered: seq<(nat, Msg)>
    ghost var held: seq<int>

    ghost predicate Objects()
    {
      && ValidConfig(config)
      && |buffers| == 2 * |config.net.links|
      && |links| == |config.net.links|
      && (forall i, j :: 0 <= i < j < |buffers| ==> buffers[i] != buffers[j])
      && (forall i, j :: 0 <= i < j < |links| ==> links[i] != links[j])
      && (forall b: nat :: b < |buffers| ==> BufferObject(b))
      && (forall l: nat :: l < |links| ==> links[l].bandwidth == config.net.links[l].bandwidth)
    }

    ghost predicate BufferObject(b: nat)
      requires |buffers| == 2 * |config.net.links| && b < |buffers|
    {
      Owner(config, b) < |config.net.nodes| && buffers[b].esim == esim && buffers[b].size == Capacity(config, b)
    }

    /** The state that the step functions are about. */
    ghost function View(): State
      reads this, esim, buffers, links
    {
      State(esim.cycle,
            seq(|buffers|, i requires 0 <= i < |buffers| reads buffers => buffers[i].View()),
            seq(|links|, i requires 0 <= i < |links| reads links => links[i].View()),
            esim.events, flight, lastId, awaiting, delivered, held)
    }

    /** The objects belong together and are in a state that satisfies the invariant,
        with the continuations of `handled` in hand. */
    ghost predicate Valid(handled: set<nat>)
      reads this, esim, buffers, links
    {
      Objects() && Inv(config, View(), handled)
    }

    /** A network without traffic, in cycle 1. */
    constructor (config: Config)
      requires ValidConfig(config)
      ensures this.config == config && View() == Initial(config) && Valid({})
    {
      var clock := new Simulator();
      var created: seq<NetBuffer> := [];
      var n := |config.net.links|;
      for b := 0 to 2 * n
        invariant |created| == b
        invariant clock.cycle == 1 && clock.events == [] && fresh(clock)
        invariant forall i :: 0 <= i < b ==> fresh(created[i]) && created[i].View() == InitialBuffer()
        invariant forall i: nat :: i < b ==>
          Owner(config, i) < |config.net.nodes| && created[i].esim == clock && created[i].size == Capacity(config, i)
        invariant forall i, j :: 0 <= i < j < b ==> created[i] != created[j]
      {
        assert WellFormedLink(config.net, config.net.links[LinkOf(config, b)]);
        var buffer := new NetBuffer(clock, Capacity(config, b));
        created := created + [buffer];
      }
      var connected: seq<NetLink> := [];
      for l := 0 to n
        invariant |connected| == l
        invariant clock.cycle == 1 && clock.events == [] && fresh(clock)
        invariant forall i :: 0 <= i < |created| ==> fresh(created[i]) && created[i].View() == InitialBuffer()
        invariant forall i :: 0 <= i < l ==> fresh(connected[i]) && connected[i].View() == LinkState(0, 0, 0)
        invariant forall i: nat :: i < l ==> connected[i].bandwidth == config.net.links[i].bandwidth
        invariant forall i, j :: 0 <= i < j < l ==> connected[i] != connected[j]
      {
        assert WellFormedLink(config.net, config.net.links[l]);
        var link := new NetLink(config.net.links[l].bandwidth);
        connected := connected + [link];
      }
      this.config := config;
      esim := clock;
      buffers := created;
      links := connected;
      flight := map[];
      lastId := 0;
      awaiting := {};
      delivered := [];
      held := seq(2 * n, i => 0);
      new;
      assert View() == Initial(config);
      InitialHolds(config);
    }

    // ---- Building blocks of the handlers ----

    method Schedule(r: Resume, after: int)
      requires Objects() && after >= 0
      modifies esim`events
      ensures View() == NetState.Schedule(old(View()), r, after)
    {
      esim.ScheduleEvent(r, after);
    }

    method WaitOn(b: nat, r: Resume)
      requires Objects() && b < |buffers| && buffers[b].count > 0
      modifies buffers[b]
      ensures View() == NetState.Wait(old(View()), b, r)
    {
      buffers[b].Wait(r);
      assert View().buffers == old(View()).buffers[b := buffers[b].View()];
    }

    /** Extract the head of its buffer, which schedules whoever waited on it. */
    method TakeHead(id: nat)
      requires Objects() && MayDepart(config, View(), id) && Counted(config, View())
      modifies this, esim`events, buffers[flight[id].buffer]
      ensures View() == Depart(old(View()), id)
    {
      var m := flight[id];
      ghost var before := View();
      HeadFits(config, before, id);
      assert BufferObject(m.buffer);
      assert before.buffers[m.buffer] == buffers[m.buffer].View();
      buffers[m.buffer].Extract(id, m.size);
      flight := flight - {id};
      awaiting := awaiting - {id};
      assert View().buffers == before.buffers[m.buffer := buffers[m.buffer].View()];
      assert View().links == before.links;
    }

    /** Insert a message in its buffer, which stays busy as long as the message. */
    method PutTail(id: nat, m: Msg)
      requires Objects() && m.buffer < |buffers| && buffers[m.buffer].count + m.size <= buffers[m.buffer].size
      modifies this, buffers[m.buffer]
      ensures View() == Arrive(old(View()), id, m)
    {
      ghost var before := View();
      assert BufferObject(m.buffer);
      assert before.buffers[m.buffer] == buffers[m.buffer].View();
      buffers[m.buffer].Insert(id, m.size);
      buffers[m.buffer].writeBusy := m.busy;
      flight := flight[id := m];
      assert View().buffers == before.buffers[m.buffer := buffers[m.buffer].View()];
      assert View().links == before.links;
    }

    method SetReadBusy(b: nat, until: int)
      requires Objects() && b < |buffers|
      modifies buffers[b]
      ensures View() == old(View()).(buffers := old(View()).buffers[b := old(View()).buffers[b].(readBusy := until)])
    {
      buffers[b].readBusy := until;
      assert View().buffers == old(View()).buffers[b := buffers[b].View()];
    }

    /** Move the head of one buffer to the tail of another. */
    method MoveMessage(id: nat, to: nat, until: int)
      requires Objects() && MayDepart(config, View(), id) && Counted(config, View())
      requires IsBuffer(config, to) && to != flight[id].buffer
      requires buffers[to].count + flight[id].size <= buffers[to].size
      modifies this, esim`events, buffers[flight[id].buffer], buffers[to]
      ensures View() == Transfer(config, old(View()), id, to, until)
    {
      var m := flight[id];
      TakeHead(id);
      SetReadBusy(m.buffer, until);
      PutTail(id, Moved(config, m, to, until));
    }
  
    // ---- node.c ----

    /** The head of input buffer `b` is ready, targets output buffer `out` and fits. */
    method MayGrant(out: nat, b: nat) returns (eligible: bool)
      requires Objects() && out < |config.net.links| && b < |buffers|
      requires HeadHasRoute(config, View(), out, b)
      ensures eligible <==> Eligible(config, View(), out, b)
    {
      ghost var s := View();
      assert BufferObject(out) && s.buffers[b] == buffers[b].View() && s.buffers[out] == buffers[out].View();
      if buffers[b].msgs == [] {
        return false;
      }
      var m := flight[buffers[b].msgs[0]];
      if m.busy >= esim.cycle || buffers[b].readBusy >= esim.cycle {
        return false;
      }
      var entry := config.table[Owner(config, out)][m.dst];
      assert entry.out != NONE;
      if entry.out != out {
        return false;
      }
      return buffers[out].count + m.size <= buffers[out].size;
    }

    /** The round-robin scheduler: at most one decision per cycle, remembered. */
    method NodeSchedule(out: nat) returns (granted: int)
      requires Objects() && Placed(config, View()) && Routed(config, View())
      requires out < |config.net.links| && Owner(config, out) < |config.net.nodes|
      requires config.net.nodes[Owner(config, out)].kind == Switch
      modifies buffers[out]
      ensures View() == NetState.NodeSchedule(config, old(View()), out)
      ensures granted == buffers[out].schedBuffer
    {
      if buffers[out].schedWhen == esim.cycle {
        return buffers[out].schedBuffer;
      }
      ghost var before := View();
      HeadsHaveRoutes(config, before, out);
      granted := Decide(out);
      SetDecision(out, granted);
    }

    method SetDecision(out: nat, granted: int)
      requires Objects() && out < |buffers|
      modifies buffers[out]
      ensures var s := old(View());
        View() == s.(buffers := s.buffers[out := s.buffers[out].(schedWhen := s.cycle, schedBuffer := granted)])
      ensures buffers[out].schedBuffer == granted
    {
      buffers[out].schedWhen := esim.cycle;
      buffers[out].schedBuffer := granted;
      assert View().buffers == old(View()).buffers[out := buffers[out].View()];
    }

    /** A new decision: none while the output buffer is busy. */
    method Decide(out: nat) returns (granted: int)
      requires Objects() && Shape(config, View()) && out < |config.net.links| && Owner(config, out) < |config.net.nodes|
      requires forall b :: b in Inputs(config, Owner(config, out)) ==> HeadHasRoute(config, View(), out, b)
      ensures View() == old(View()) && granted == NetState.Decide(config, View(), out)
    {
      var inputs := Inputs(config, Owner(config, out));
      var last := IndexIn(inputs, buffers[out].schedBuffer);
      assert View().buffers[out] == buffers[out].View();
      if buffers[out].writeBusy >= esim.cycle {
        return NONE;
      }
      granted := SearchInputs(out, inputs, last);
    }

    /** Find the input buffer to fetch from, starting after the last one granted. */
    method SearchInputs(out: nat, inputs: seq<nat>, last: nat) returns (granted: int)
      requires Objects() && out < |config.net.links| && Owner(config, out) < |config.net.nodes|
      requires forall k :: 0 <= k < |inputs| ==> inputs[k] < |buffers| && HeadHasRoute(config, View(), out, inputs[k])
      ensures granted == Search(config, View(), out, inputs, last, 0)
    {
      for i := 0 to |inputs|
        invariant Search(config, View(), out, inputs, last, 0) == Search(config, View(), out, inputs, last, i)
      {
        var b := inputs[Candidate(last, i, |inputs|)];
        var eligible := MayGrant(out, b);
        if eligible {
          return b;
        }
      }
      return NONE;
    }

    // ---- message.c ----

    /** The four-event state machine of a message. */
    method HandleEvent(r: Resume)
      requires Objects() && SafeHandler(config, View(), r) && Inv(config, View(), InHand(r))
      requires EventOk(config, View(), Event(esim.cycle, r))
      modifies this, esim`events, buffers, links
      ensures View() == Handler(config, old(View()), r)
      ensures Valid({})
    {
      HandlerKeeps(config, View(), Event(esim.cycle, r));
      match r
      case OutputBuffer(id) => OutputBufferEvent(id);
      case InputBuffer(id) => InputBufferEvent(id);
      case Receive(id) => ReceiveEvent(id);
      case Retry(_) =>
    }

    method OutputBufferEvent(id: nat)
      requires Valid({id}) && SafeHandler(config, View(), OutputBuffer(id))
      modifies this, esim`events, buffers, links
      ensures View() == OutputStep(config, old(View()), id)
    {
      var m := flight[id];
      var l := m.buffer;
      var input := InputOf(config, l);
      ghost var s := View();
      HandlesMsg(config, s, id);
      assert WellFormedLink(config.net, config.net.links[l]);
      RoomFacts(config, s, id, input);
      assert BufferObject(l) && BufferObject(input);
      assert s.buffers[l] == buffers[l].View() && s.buffers[input] == buffers[input].View() && s.links[l] == links[l].View();
      if buffers[l].msgs[0] != id {
        WaitOn(l, OutputBuffer(id));
      } else if buffers[l].readBusy >= esim.cycle {
        Schedule(OutputBuffer(id), Delay(esim.cycle, buffers[l].readBusy));
      } else if links[l].busy >= esim.cycle {
        Schedule(OutputBuffer(id), Delay(esim.cycle, links[l].busy));
      } else if buffers[input].writeBusy >= esim.cycle {
        Schedule(OutputBuffer(id), Delay(esim.cycle, buffers[input].writeBusy));
      } else if buffers[input].count + m.size > buffers[input].size {
        assert m.size <= buffers[input].size;
        WaitOn(input, OutputBuffer(id));
      } else {
        CrossLink(id);
      }
    }

    /** Everything is free: transfer the message over its link. */
    method CrossLink(id: nat)
      requires Objects() && MayDepart(config, View(), id) && Counted(config, View()) && flight[id].buffer < |config.net.links|
      requires config.net.links[flight[id].buffer].bandwidth >= 1 && flight[id].size >= 1
      requires var input := InputOf(config, flight[id].buffer);
        buffers[input].count + flight[id].size <= buffers[input].size
      modifies this, esim`events, buffers, links
      ensures View() == SendOverLink(config, old(View()), id)
    {
      var m := flight[id];
      var l := m.buffer;
      var lat := Latency(m.size, links[l].bandwidth);
      LatencyPositive(m.size, links[l].bandwidth);
      MoveMessage(id, InputOf(config, l), Until(esim.cycle, lat));
      Carry(l, m.size, lat);
      Schedule(InputBuffer(id), lat);
    }

    /** Occupy a link for one transfer and count it. */
    method Carry(l: nat, size: nat, lat: int)
      requires Objects() && l < |links|
      modifies links[l]
      ensures View() == Transmit(old(View()), l, size, lat)
    {
      ghost var before := View();
      links[l].busy := Until(esim.cycle, lat);
      links[l].busyCycles := links[l].busyCycles + lat;
      links[l].transferredBytes := links[l].transferredBytes + size;
      assert before.links[l] == old(links[l].View());
      assert View().links == before.links[l := links[l].View()];
      assert View().buffers == before.buffers;
    }

    method InputBufferEvent(id: nat)
      requires Valid({id}) && SafeHandler(config, View(), InputBuffer(id))
      modifies this, esim`events, buffers, links
      ensures View() == InputStep(config, old(View()), id)
    {
      var m := flight[id];
      ghost var s := View();
      HandlesMsg(config, s, id);
      RoomFacts(config, s, id, m.buffer);
      assert s.buffers[m.buffer] == buffers[m.buffer].View();
      if buffers[m.buffer].msgs[0] != id {
        WaitOn(m.buffer, InputBuffer(id));
        return;
      }
      if m.node == m.dst {
        Schedule(Receive(id), 0);
        return;
      }
      if buffers[m.buffer].readBusy >= esim.cycle {
        Schedule(InputBuffer(id), Delay(esim.cycle, buffers[m.buffer].readBusy));
        return;
      }
      ghost var next := CrossingAllowed(config, s, id);
      RoomFacts(config, s, id, next);
      assert BufferObject(next) && s.buffers[next] == buffers[next].View();
      CrossSwitch(id);
    }

    /** Cross the switch if the output buffer is free, has room, and grants it. */
    method CrossSwitch(id: nat)
      requires Objects() && Shape(config, View()) && Routed(config, View()) && Counted(config, View())
      requires Handles(config, View(), id) && InTransit(config, flight[id]) && IsHead(View(), id) && flight[id].size >= 1
      requires var out := config.table[flight[id].node][flight[id].dst].out;
        && MayCross(config, View(), id, out)
        && (buffers[out].count + flight[id].size > buffers[out].size ==> buffers[out].count > 0)
      modifies this, esim`events, buffers
      ensures View() == CrossStep(config, old(View()), id)
    {
      var m := flight[id];
      ghost var s := View();
      var out := config.table[m.node][m.dst].out;
      assert BufferObject(out) && s.buffers[out] == buffers[out].View();
      if buffers[out].writeBusy >= esim.cycle {
        Schedule(InputBuffer(id), Delay(esim.cycle, buffers[out].writeBusy));
      } else if buffers[out].count + m.size > buffers[out].size {
        WaitOn(out, InputBuffer(id));
      } else {
        AskScheduler(id, out);
      }
    }

    /** Cross if the scheduler says that it is our turn, else try later. */
    method AskScheduler(id: nat, out: nat)
      requires Objects() && Shape(config, View()) && Routed(config, View()) && Counted(config, View())
      requires MayCross(config, View(), id, out) && flight[id].size >= 1
      requires buffers[out].count + flight[id].size <= buffers[out].size
      modifies this, esim`events, buffers
      ensures var d := NetState.NodeSchedule(config, old(View()), out);
        && MayDepart(config, d, id)
        && View() == if d.buffers[out].schedBuffer != old(flight[id].buffer) then NetState.Schedule(d, InputBuffer(id), 1)
                     else SendThroughSwitch(config, d, id, out)
    {
      ghost var s := View();
      var granted := NodeSchedule(out);
      StillDeparts(config, s, id, out);
      assert View().buffers[out] == buffers[out].View();
      if granted != flight[id].buffer {
        Schedule(InputBuffer(id), 1);
      } else {
        CoreCounted(config, s, View());
        EnterOutput(id, out);
      }
    }

    /** It is the message's turn: transfer it through the switch. */
    method EnterOutput(id: nat, out: nat)
      requires Objects() && MayDepart(config, View(), id) && Counted(config, View())
      requires IsBuffer(config, out) && out != flight[id].buffer && flight[id].size >= 1
      requires flight[id].node < |config.net.nodes|
      requires config.net.nodes[flight[id].node].kind != EndNode && config.net.nodes[flight[id].node].bandwidth > 0
      requires buffers[out].count + flight[id].size <= buffers[out].size
      modifies this, esim`events, buffers
      ensures View() == SendThroughSwitch(config, old(View()), id, out)
    {
      var m := flight[id];
      var lat := Latency(m.size, config.net.nodes[m.node].bandwidth);
      LatencyPositive(m.size, config.net.nodes[m.node].bandwidth);
      MoveMessage(id, out, Until(esim.cycle, lat));
      Schedule(OutputBuffer(id), lat);
    }

    method Announce(id: nat)
      requires Objects()
      modifies this`awaiting
      ensures View() == old(View()).(awaiting := old(View()).awaiting + {id})
    {
      awaiting := awaiting + {id};
      assert View().buffers == old(View()).buffers && View().links == old(View()).links;
    }

    method ReceiveEvent(id: nat)
      requires Valid({id}) && SafeHandler(config, View(), Receive(id)) && Arrived(config, View(), id)
      modifies this, esim`events, buffers
      ensures View() == ReceiveStep(config, old(View()), id)
    {
      ghost var s := View();
      HandlesMsg(config, s, id);
      AwaitKeeps(config, s, id);
      Announce(id);
      if !flight[id].notify {
        AbsorbKeeps(config, View(), id);
        ReceiveMessage(id);
      }
    }

    // ---- network.c ----

    /** Absorb a message at the head of its input buffer. */
    method ReceiveMessage(id: nat)
      requires Objects() && MayDepart(config, View(), id) && Counted(config, View())
      modifies this, esim`events, buffers
      ensures View() == Absorb(old(View()), id)
    {
      ghost var s := View();
      TakeHead(id);
      delivered := delivered + [(id, s.flight[id])];
      assert View() == Absorb(s, id);
    }

    /** The receiver takes a message that has been announced to it. */
    method Take(id: nat)
      requires Valid({}) && id in awaiting
      modifies this, esim`events, buffers
      ensures Safe(config, old(View()), Action.Take(id)) && View() == Apply(config, old(View()), Action.Take(id))
      ensures Valid({})
    {
      AbsorbKeeps(config, View(), id);
      ReceiveMessage(id);
    }

    /** Can the message be sent? If not, the retry event is scheduled, or waits for room. */
    method CanSend(src: nat, dst: nat, size: nat, tag: nat) returns (ok: bool)
      requires Valid({}) && Deliverable(config, src, dst, size)
      modifies esim`events, buffers
      ensures ok ==> View() == old(View()) && config.table[src][dst].out >= 0
      ensures ok == old(MaySend(config, View(), src, dst, size))
      ensures !ok ==> forall notify :: View() == TrySend(config, old(View()), src, dst, size, notify, tag)
      ensures ok ==> forall notify ::
        TrySend(config, View(), src, dst, size, notify, tag) ==
          NetState.Schedule(Inject(config, View(), src, dst, size, notify, config.table[src][dst].out), OutputBuffer(lastId + 1), 1)
    {
      ghost var s := View();
      ghost var o, k := FirstOutput(config, src, dst, size);
      var out := config.table[src][dst].out;
      SenderFacts(config, s, out, size);
      assert BufferObject(out) && s.buffers[out] == buffers[out].View();
      if buffers[out].writeBusy >= esim.cycle {
        Schedule(Retry(tag), Delay(esim.cycle, buffers[out].writeBusy));
        return false;
      }
      if buffers[out].count + size > buffers[out].size {
        WaitOn(out, Retry(tag));
        return false;
      }
      return true;
    }

    /** Send a message that can be sent. */
    method SendMessage(src: nat, dst: nat, size: nat, notify: bool) returns (id: nat)
      requires Objects() && src < |config.table| && dst < |config.table[src]| && config.table[src][dst].out >= 0
      requires Shape(config, View()) && MaySend(config, View(), src, dst, size)
      modifies this, esim`events, buffers
      ensures id == old(lastId) + 1
      ensures View() == NetState.Schedule(Inject(config, old(View()), src, dst, size, notify, config.table[src][dst].out),
                                          OutputBuffer(id), 1)
    {
      var out := config.table[src][dst].out;
      ghost var s := View();
      assert BufferObject(out) && s.buffers[out] == buffers[out].View();
      lastId := lastId + 1;
      id := lastId;
      assert View() == s.(lastId := id);
      PutTail(id, Msg(size, src, dst, src, out, esim.cycle, notify, 0));
      Schedule(OutputBuffer(id), 1);
    }

    /** Send the message, or arrange to try again. */
    method TrySendMessage(src: nat, dst: nat, size: nat, notify: bool, tag: nat) returns (sent: bool)
      requires Valid({}) && Deliverable(config, src, dst, size)
      modifies this, esim`events, buffers
      ensures View() == TrySend(config, old(View()), src, dst, size, notify, tag)
      ensures Valid({})
      ensures sent == old(MaySend(config, View(), src, dst, size))
      ensures lastId == if sent then old(lastId) + 1 else old(lastId)
    {
      ghost var s := View();
      TrySendKeeps(config, s, src, dst, size, notify, tag);
      sent := CanSend(src, dst, size, tag);
      if sent {
        assert MaySend(config, View(), src, dst, size);
        var id := SendMessage(src, dst, size, notify);
      }
      assert View() == TrySend(config, s, src, dst, size, notify, tag);
    }

    // ---- esim.c ----

    /** Process the events of the current cycle, in whatever order the heap hands them
        out, until none is left; then move the clock. The clients stay quiet. */
    method ProcessEvents()
      requires Valid({})
      modifies this, esim, buffers, links
      ensures Valid({}) && esim.cycle == old(esim.cycle) + 1
      ensures WholeCycle(config, old(View()), View())
    {
      ghost var ats := HandleEvents();
      MoveClock();
    }

    method HandleEvents() returns (ghost ats: seq<nat>)
      requires Valid({})
      modifies this, esim`events, buffers, links
      ensures Valid({}) && NothingNow()
      ensures Events(config, old(View()), ats, View())
    {
      ghost var s := View();
      ats := [];
      var at := NextEvent(esim.events, esim.cycle, 0);
      while at != NONE
        invariant Valid({}) && NextIs(at)
        invariant Events(config, s, ats, View())
        decreases Rank(View())
      {
        ghost var handled: nat := at;
        at := ProcessEvent(at, s, ats);
        ats := ats + [handled];
      }
    }

    /** The event to handle next, if there is one. */
    ghost predicate NextIs(at: int)
      reads esim
    {
      if at == NONE then NothingNow() else 0 <= at < |esim.events| && esim.events[at].time == esim.cycle
    }

    ghost predicate NothingNow()
      reads esim
    {
      forall i :: 0 <= i < |esim.events| ==> esim.events[i].time != esim.cycle
    }

    /** Take one event out of the heap and handle it, after those handled since `start`. */
    method ProcessEvent(at: nat, ghost start: State, ghost ats: seq<nat>) returns (next: int)
      requires Valid({}) && NextIs(at)
      requires Events(config, start, ats, View())
      modifies this, esim`events, buffers, links
      ensures Valid({}) && Rank(View()) < old(Rank(View()))
      ensures Events(config, start, ats + [at], View())
      ensures NextIs(next)
    {
      ghost var s := View();
      PoppedIsHandled(config, s, at);
      var r := TakeEvent(at);
      HandleEvent(r);
      OneMoreEvent(config, start, ats, s, at, View());
      next := NextEvent(esim.events, esim.cycle, 0);
    }

    method TakeEvent(at: nat) returns (r: Resume)
      requires Objects() && at < |esim.events|
      modifies esim`events
      ensures Objects() && View() == Pop(old(View()), at) && r == old(esim.events[at].resume)
    {
      r := esim.events[at].resume;
      esim.events := esim.events[..at] + esim.events[at + 1..];
    }

    method MoveClock()
      requires Valid({}) && NothingNow()
      modifies this, esim`cycle
      ensures Step(config, old(View()), Advance, View()) && Valid({})
    {
      ghost var s := View();
      ActionKeeps(config, s, Advance);
      esim.cycle := esim.cycle + 1;
      held := Tick(config, s).held;
      assert View().buffers == s.buffers && View().links == s.links;
    }
  }

  /** The position of an event of the cycle in the heap, from position `i` on, if there is
      one. */
  function NextEvent(events: seq<Event>, cycle: int, i: nat): (at: int)
    requires i <= |events|
    ensures if at == NONE then forall j :: i <= j < |events| ==> events[j].time != cycle
            else i <= at < |events| && events[at].time == cycle
    decreases |events| - i
  {
    if i == |events| then NONE
    else if events[i].time == cycle then i
    else NextEvent(events, cycle, i + 1)
  }

  /** Handling the events at these positions of the heap, one after the other, leads from
      one state to the other. */
  ghost predicate Events(c: Config, s: State, ats: seq<nat>, t: State)
    decreases |ats|
  {
    ValidConfig(c) &&
    if ats == [] then s == t
    else
      var n := |ats| - 1;
      exists m :: Events(c, s, ats[..n], m) && Step(c, m, Handle(ats[n]), t)
  }

  lemma OneMoreEvent(c: Config, s: State, ats: seq<nat>, m: State, at: nat, t: State)
    requires Events(c, s, ats, m) && Step(c, m, Handle(at), t)
    ensures Events(c, s, ats + [at], t)
  {
    assert (ats + [at])[..|ats|] == ats;
  }

  /** Some events of the cycle are handled, and when none is left the clock moves. */
  ghost predicate WholeCycle(c: Config, s: State, t: State) {
    exists ats, m :: Events(c, s, ats, m) && Step(c, m, Advance, t)
  }

  /** The handler of an event just taken out of the heap may be called. */
  lemma PoppedIsHandled(c: Config, s: State, at: nat)
    requires Inv(c, s, {}) && at < |s.events| && s.events[at].time == s.cycle
    ensures var p, e := Pop(s, at), s.events[at];
      && p.cycle == s.cycle
      && SafeHandler(c, p, e.resume) && Inv(c, p, InHand(e.resume)) && EventOk(c, p, Event(p.cycle, e.resume))
      && Rank(Handler(c, p, e.resume)) < Rank(s)
  {
    PopKeeps(c, s, at);
    CoreEvent(c, s, Pop(s, at), s.events[at]);
    HandlingRanks(c, s, at);
  }

  lemma SenderFacts(c: Config, s: State, out: nat, size: nat)
    requires Inv(c, s, {}) && out < |c.net.links| && IsBuffer(c, out)
    requires Owner(c, out) < |c.net.nodes| && size <= Capacity(c, out)
    ensures s.buffers[out].count + size > Capacity(c, out) ==> s.buffers[out].count > 0
  {
  }

  /** A buffer that a message is in, or is too full for it, is not empty, and a message
      fits any empty buffer. */
  lemma RoomFacts(c: Config, s: State, id: nat, b: nat)
    requires Inv(c, s, {id}) && IsBuffer(c, b)
    ensures id in s.flight && s.flight[id].size >= 1
    ensures Owner(c, b) < |c.net.nodes| && s.flight[id].size <= Capacity(c, b)
    ensures IsBuffer(c, s.flight[id].buffer) && s.buffers[s.flight[id].buffer].count > 0
    ensures s.buffers[b].count + s.flight[id].size > Capacity(c, b) ==> s.buffers[b].count > 0
  {
    var m := s.flight[id];
    assert PlacedMsg(c, s, id) && RoutedMsg(c, m) && Fits(c, m, b);
    assert CountedBuffer(c, s, m.buffer);
    TotalHolds(s.flight, s.buffers[m.buffer].msgs, id);
  }

  lemma {:induction false} TotalHolds(f: map<nat, Msg>, ids: seq<nat>, id: nat)
    requires id in ids
    ensures Total(f, ids) >= SizeOf(f, id)
  {
    if ids[0] != id {
      TotalHolds(f, ids[1..], id);
    }
  }

  /** Whatever is first in the buffer has an entry with an output buffer. */
  ghost predicate HeadHasRoute(c: Config, s: State, out: nat, b: nat) {
    && ValidConfig(c) && out < |c.net.links| && Owner(c, out) < |c.net.nodes| && b < |s.buffers|
    && (s.buffers[b].msgs != [] ==>
          && s.buffers[b].msgs[0] in s.flight
          && s.flight[s.buffers[b].msgs[0]].dst < |c.table|
          && c.table[Owner(c, out)][s.flight[s.buffers[b].msgs[0]].dst].out != NONE)
  }

  /** In a switch, this is so for every input buffer. */
  lemma HeadsHaveRoutes(c: Config, s: State, out: nat)
    requires ValidConfig(c) && Placed(c, s) && Routed(c, s)
    requires out < |c.net.links| && Owner(c, out) < |c.net.nodes|
    requires c.net.nodes[Owner(c, out)].kind == Switch
    ensures forall b :: b in Inputs(c, Owner(c, out)) ==> HeadHasRoute(c, s, out, b)
  {
    forall b | b in Inputs(c, Owner(c, out))
      ensures HeadHasRoute(c, s, out, b)
    {
      assert PlacedBuffer(s, b);
      if s.buffers[b].msgs != [] {
        var id := s.buffers[b].msgs[0];
        assert PlacedMsg(c, s, id) && RoutedMsg(c, s.flight[id]);
        NextOutput(c, s.flight[id]);
      }
    }
  }

  /** A buffer holds at least what its head takes. */
  lemma HeadFits(c: Config, s: State, id: nat)
    requires ValidConfig(c) && MayDepart(c, s, id) && Counted(c, s)
    ensures s.buffers[s.flight[id].buffer].count >= s.flight[id].size
  {
    assert CountedBuffer(c, s, s.flight[id].buffer);
  }
}
