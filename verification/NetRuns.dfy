/** Runs of the network: whatever the clients do, and in whatever order the heap hands
    out the events of a cycle, no handler meets a state it does not expect, and the
    invariant holds throughout. */
module NetRuns {
  import opened Topology
  import opened Routes
  import opened NetState
  import opened NetInvariant
  import opened NetPrimitives
  import opened NetHandlers

  // ---- The remaining operations ----

  lemma AwaitKeeps(c: Config, s: State, id: nat)
    requires Inv(c, s, {id}) && id in s.flight && Arrived(c, s, id)
    ensures Inv(c, s.(awaiting := s.awaiting + {id}), {})
  {
    AheadOfClock(c, s, {id});
    SameNetworkKeeps(c, s, s.(awaiting := s.awaiting + {id}), {id}, {});
  }

  lemma AheadOfClock(c: Config, s: State, handled: set<nat>)
    requires Inv(c, s, handled)
    ensures forall i :: 0 <= i < |s.events| ==> s.events[i].time >= s.cycle
  {
    forall i | 0 <= i < |s.events|
      ensures s.events[i].time >= s.cycle
    {
      assert EventOk(c, s, s.events[i]);
    }
  }

  lemma AbsorbKeeps(c: Config, s: State, id: nat)
    requires Inv(c, s, {}) && id in s.awaiting
    ensures MayDepart(c, s, id)
    ensures Inv(c, Absorb(s, id), {}) && Pending(Absorb(s, id)) == Pending(s)
  {
    assert id in s.flight && Arrived(c, s, id) && PlacedMsg(c, s, id);
    DepartKeeps(c, s, id, {});
    DepartPending(c, s, id);
    var t := Depart(s, id);
    assert {} - {id} == {};
    RecordKeeps(c, t, t.delivered + [(id, s.flight[id])]);
  }

  lemma RecordKeeps(c: Config, s: State, delivered: seq<(nat, Msg)>)
    requires Inv(c, s, {})
    ensures Inv(c, s.(delivered := delivered), {}) && Pending(s.(delivered := delivered)) == Pending(s)
  {
    var t := s.(delivered := delivered);
    SameConserved(s, t, {}, {});
    assert SameCore(s, t);
    CoreInv(c, s, t, {}, {});
  }

  lemma ReceiveStepKeeps(c: Config, s: State, id: nat)
    requires Inv(c, s, {id}) && id in s.flight && Arrived(c, s, id)
    ensures Handles(c, s, id)
    ensures Inv(c, ReceiveStep(c, s, id), {}) && Pending(ReceiveStep(c, s, id)) == Pending(s)
  {
    HandlesMsg(c, s, id);
    AwaitKeeps(c, s, id);
    if !s.flight[id].notify {
      AbsorbKeeps(c, s.(awaiting := s.awaiting + {id}), id);
    }
  }

  /** The output buffer that a client's message enters. */
  lemma FirstOutput(c: Config, src: nat, dst: nat, size: nat) returns (out: nat, k: nat)
    requires ValidConfig(c) && Deliverable(c, src, dst, size)
    ensures out == c.table[src][dst].out && out < |c.net.links| && c.net.links[out].src == src
    ensures k > 0 && Hops(c.net, c.table, src, dst, k)
  {
    k :| Hops(c.net, c.table, src, dst, k);
    assert Linked(c.net, src, c.table[src][dst]);
    out := c.table[src][dst].out;
  }

  lemma NewIdentifier(c: Config, s: State)
    requires Placed(c, s)
    ensures s.lastId + 1 !in s.flight
  {
    assert forall id :: id in s.flight ==> PlacedMsg(c, s, id);
  }

  lemma CountUpKeeps(c: Config, s: State)
    requires Inv(c, s, {})
    ensures Inv(c, s.(lastId := s.lastId + 1), {})
  {
    AheadOfClock(c, s, {});
    SameNetworkKeeps(c, s, s.(lastId := s.lastId + 1), {}, {});
  }

  lemma NewMessageRouted(c: Config, src: nat, dst: nat, size: nat, m: Msg, k: nat)
    requires ValidConfig(c) && Deliverable(c, src, dst, size) && Hops(c.net, c.table, src, dst, k)
    requires m.size == size && m.src == m.node == src && m.dst == dst && m.hops == 0
    requires m.buffer < |c.net.links| && c.net.links[m.buffer].src == src && c.table[src][dst].out == m.buffer
    ensures RoutedMsg(c, m)
  {
    assert Remaining(c, m, k);
    forall b: nat | IsBuffer(c, b)
      ensures Fits(c, m, b)
    {
    }
  }

  lemma InjectKeeps(c: Config, s: State, src: nat, dst: nat, size: nat, notify: bool, out: nat, k: nat)
    requires Inv(c, s, {}) && Deliverable(c, src, dst, size)
    requires out < |c.net.links| && c.net.links[out].src == src && c.table[src][dst].out == out
    requires Hops(c.net, c.table, src, dst, k)
    requires s.buffers[out].count + size <= Capacity(c, out)
    ensures var t := Inject(c, s, src, dst, size, notify, out);
      Inv(c, t, {t.lastId}) && Pending(t) == Pending(s) && t.flight[t.lastId].busy == t.cycle
  {
    var m := Msg(size, src, dst, src, out, s.cycle, notify, 0);
    NewMessageRouted(c, src, dst, size, m, k);
    InjectRouted(c, s, m);
  }

  lemma InjectRouted(c: Config, s: State, m: Msg)
    requires Inv(c, s, {}) && RoutedMsg(c, m) && m.size >= 1
    requires s.buffers[m.buffer].count + m.size <= Capacity(c, m.buffer)
    ensures var id := s.lastId + 1;
      var t := Arrive(s.(lastId := id), id, m);
      Inv(c, t, {id}) && Pending(t) == Pending(s)
  {
    var t := s.(lastId := s.lastId + 1);
    NewIdentifier(c, s);
    CountUpKeeps(c, s);
    InsertKeeps(c, t, t.lastId, m);
  }

  /** A send is accepted exactly when the output buffer is free and has room, and then the
      message has its one event; or it is refused, and the sender has one more retry event
      or wakeup entry. */
  lemma TrySendKeeps(c: Config, s: State, src: nat, dst: nat, size: nat, notify: bool, tag: nat)
    requires Inv(c, s, {}) && Deliverable(c, src, dst, size)
    ensures var t := TrySend(c, s, src, dst, size, notify, tag);
      && Inv(c, t, {})
      && (if t.lastId == s.lastId then t.flight == s.flight && Pending(t) == Pending(s) + multiset{Sender(tag)}
          else t.flight.Keys == s.flight.Keys + {t.lastId} && Pending(t) == Pending(s) + multiset{Message(t.lastId)})
      && t.lastId == (if MaySend(c, s, src, dst, size) then s.lastId + 1 else s.lastId)
  {
    var out, k := FirstOutput(c, src, dst, size);
    assert CountedBuffer(c, s, out);
    assert WellFormedLink(c.net, c.net.links[out]);
    if s.buffers[out].writeBusy >= s.cycle {
      Schedules(c, s, Retry(tag), Delay(s.cycle, s.buffers[out].writeBusy));
    } else if s.buffers[out].count + size > Capacity(c, out) {
      assert s.buffers[out].msgs != [];
      Waits(c, s, out, Retry(tag));
    } else {
      AcceptedKeeps(c, s, src, dst, size, notify, out, k);
    }
  }

  /** What a send leaves behind: the message at the tail of the output buffer, which is
      busy for this cycle, with an event in the next; or the sender's retry in the first
      cycle in which the buffer is free; or the sender at the end of its wakeup list. */
  lemma SendOutcome(c: Config, s: State, src: nat, dst: nat, size: nat, notify: bool, tag: nat)
    requires Inv(c, s, {}) && Deliverable(c, src, dst, size)
    ensures var t, out := TrySend(c, s, src, dst, size, notify, tag), c.table[src][dst].out;
      && 0 <= out < |s.buffers| == |t.buffers|
      && var before, after := s.buffers[out], t.buffers[out];
      if MaySend(c, s, src, dst, size) then
        && t.flight == s.flight[s.lastId + 1 := Msg(size, src, dst, src, out, s.cycle, notify, 0)]
        && after.msgs == before.msgs + [s.lastId + 1] && after.count == before.count + size
        && after.writeBusy == s.cycle && t.events == s.events + [Event(s.cycle + 1, OutputBuffer(s.lastId + 1))]
      else
        && t.flight == s.flight && after.msgs == before.msgs && after.count == before.count
        && if before.writeBusy >= s.cycle then t.events == s.events + [Event(before.writeBusy + 1, Retry(tag))]
           else t.events == s.events && after.wakeups == before.wakeups + [Retry(tag)]
  {
    var out, k := FirstOutput(c, src, dst, size);
    assert WellFormedLink(c.net, c.net.links[out]);
  }

  lemma AcceptedKeeps(c: Config, s: State, src: nat, dst: nat, size: nat, notify: bool, out: nat, k: nat)
    requires Inv(c, s, {}) && Deliverable(c, src, dst, size)
    requires out < |c.net.links| && c.net.links[out].src == src && c.table[src][dst].out == out
    requires Hops(c.net, c.table, src, dst, k)
    requires s.buffers[out].count + size <= Capacity(c, out)
    ensures var t := NetState.Schedule(Inject(c, s, src, dst, size, notify, out), OutputBuffer(s.lastId + 1), 1);
      && Inv(c, t, {}) && t.lastId == s.lastId + 1
      && t.flight.Keys == s.flight.Keys + {t.lastId} && Pending(t) == Pending(s) + multiset{Message(t.lastId)}
  {
    InjectKeeps(c, s, src, dst, size, notify, out, k);
    NewMessageScheduled(c, Inject(c, s, src, dst, size, notify, out), s.lastId + 1);
  }

  lemma NewMessageScheduled(c: Config, s: State, id: nat)
    requires Inv(c, s, {id}) && s.flight[id].buffer < |c.net.links| && s.flight[id].busy == s.cycle
    ensures Resumed(c, s, NetState.Schedule(s, OutputBuffer(id), 1), OutputBuffer(id))
  {
    Schedules(c, s, OutputBuffer(id), 1);
  }

  // ---- Actions ----

  /** What the environment may choose to do. */
  ghost predicate Enabled(c: Config, s: State, a: Action)
    requires ValidConfig(c)
  {
    match a
    case Handle(at) => at < |s.events| && s.events[at].time == s.cycle
    case Advance => forall i :: 0 <= i < |s.events| ==> s.events[i].time != s.cycle
    case Send(src, dst, size, notify, tag) => Deliverable(c, src, dst, size)
    case Take(id) => id in s.awaiting
  }

  /** The assertions and panics on the way of an action: the message is where its event
      says, at the head of its buffer when it must be, no longer busy, and has a route
      through a switch. */
  ghost predicate Safe(c: Config, s: State, a: Action)
    requires ValidConfig(c) && Enabled(c, s, a)
  {
    && Shape(c, s)
    && match a
       case Handle(at) => SafeHandler(c, Pop(s, at), s.events[at].resume)
       case Advance => forall i :: 0 <= i < |s.events| ==> s.events[i].time > s.cycle
       case Send(_, _, _, _, _) => s.lastId + 1 !in s.flight
       case Take(id) => id in s.flight && s.flight[id].buffer < |s.buffers| && IsHead(s, id)
  }

  ghost predicate SafeHandler(c: Config, s: State, r: Resume) {
    !r.Retry? ==>
    && Handles(c, s, r.id)
    && s.buffers[s.flight[r.id].buffer].msgs != []
    && match r
       case OutputBuffer(id) =>
         s.flight[id].buffer < |c.net.links| && s.flight[id].busy < s.cycle
       case InputBuffer(id) =>
         && s.flight[id].buffer >= |c.net.links| && s.flight[id].busy < s.cycle
         && (s.flight[id].node != s.flight[id].dst ==> InTransit(c, s.flight[id]))
       case Receive(id) => s.flight[id].node == s.flight[id].dst && IsHead(s, id)
  }

  ghost function Handler(c: Config, s: State, r: Resume): State
    requires SafeHandler(c, s, r)
  {
    match r
    case OutputBuffer(id) => OutputStep(c, s, id)
    case InputBuffer(id) => InputStep(c, s, id)
    case Receive(id) => ReceiveStep(c, s, id)
    case Retry(_) => s
  }

  ghost function Apply(c: Config, s: State, a: Action): State
    requires ValidConfig(c) && Enabled(c, s, a) && Safe(c, s, a)
  {
    match a
    case Handle(at) => Handler(c, Pop(s, at), s.events[at].resume)
    case Advance => Tick(c, s)
    case Send(src, dst, size, notify, tag) => TrySend(c, s, src, dst, size, notify, tag)
    case Take(id) => Absorb(s, id)
  }

  lemma HandlerKeeps(c: Config, s: State, e: Event)
    requires Inv(c, s, InHand(e.resume)) && EventOk(c, s, e) && e.time == s.cycle
    ensures SafeHandler(c, s, e.resume)
    ensures Inv(c, Handler(c, s, e.resume), {})
    ensures Pending(Handler(c, s, e.resume)) ==
            Pending(s) + if e.resume.OutputBuffer? || e.resume.InputBuffer? then multiset{e.resume.Who()} else multiset{}
  {
    match e.resume
    case OutputBuffer(id) =>
      HandlesMsg(c, s, id);
      assert PlacedMsg(c, s, id);
      OutputStepKeeps(c, s, id);
    case InputBuffer(id) =>
      HandlesMsg(c, s, id);
      assert PlacedMsg(c, s, id);
      InputStepKeeps(c, s, id);
    case Receive(id) =>
      HandlesMsg(c, s, id);
      ReceiveStepKeeps(c, s, id);
    case Retry(_) =>
  }

  /** Every action the environment may choose is safe and keeps the invariant. */
  lemma ActionKeeps(c: Config, s: State, a: Action)
    requires Inv(c, s, {}) && Enabled(c, s, a)
    ensures Safe(c, s, a)
    ensures Inv(c, Apply(c, s, a), {})
  {
    match a
    case Handle(at) =>
      PopKeeps(c, s, at);
      var t := Pop(s, at);
      CoreEvent(c, s, t, s.events[at]);
      HandlerKeeps(c, t, s.events[at]);
    case Advance =>
      AheadOfClock(c, s, {});
      TickKeeps(c, s);
    case Send(src, dst, size, notify, tag) =>
      NewIdentifier(c, s);
      TrySendKeeps(c, s, src, dst, size, notify, tag);
    case Take(id) =>
      AbsorbKeeps(c, s, id);
  }

  // ---- Runs ----

  ghost predicate Step(c: Config, s: State, a: Action, t: State)
    requires ValidConfig(c)
  {
    Enabled(c, s, a) && Safe(c, s, a) && t == Apply(c, s, a)
  }

  /** `states` is what the network goes through under `actions`, from the start. */
  ghost predicate Run(c: Config, states: seq<State>, actions: seq<Action>) {
    && ValidConfig(c)
    && |states| == |actions| + 1
    && states[0] == Initial(c)
    && forall i :: 0 <= i < |actions| ==> StepAt(c, states, actions, i)
  }

  ghost predicate StepAt(c: Config, states: seq<State>, actions: seq<Action>, i: nat)
    requires ValidConfig(c) && |states| == |actions| + 1 && i < |actions|
  {
    Step(c, states[i], actions[i], states[i + 1])
  }

  lemma InitialHolds(c: Config)
    requires ValidConfig(c)
    ensures Inv(c, Initial(c), {})
  {
    var s := Initial(c);
    NothingWaits(s.buffers);
    assert Pending(s) == multiset{};
    forall id: nat
      ensures ConservedMsg(s, {}, id)
    {
    }
    forall b: nat | b < |s.buffers|
      ensures PlacedBuffer(s, b) && CountedBuffer(c, s, b)
    {
      assert s.buffers[b] == InitialBuffer();
      assert WellFormedLink(c.net, c.net.links[LinkOf(c, b)]);
    }
  }

  lemma {:induction false} NothingWaits(bs: seq<Buffer>)
    requires forall b :: 0 <= b < |bs| ==> bs[b].wakeups == []
    ensures Waiting(bs) == multiset{}
  {
    if bs != [] {
      NothingWaits(bs[..|bs| - 1]);
    }
  }

  /** The states before step `k` are a run of their own. */
  lemma Prefix(c: Config, states: seq<State>, actions: seq<Action>, k: nat)
    requires Run(c, states, actions) && k <= |actions|
    ensures Run(c, states[..k + 1], actions[..k]) && states[..k + 1][|actions[..k]|] == states[k]
    ensures k < |actions| ==> Step(c, states[k], actions[k], states[k + 1])
  {
    var ss, aa := states[..k + 1], actions[..k];
    forall i | 0 <= i < k
      ensures StepAt(c, ss, aa, i)
    {
      assert StepAt(c, states, actions, i);
    }
    if k < |actions| {
      assert StepAt(c, states, actions, k);
    }
  }

  /** In every state of every run the invariant holds, and whatever the environment
      chooses next is safe. */
  lemma {:induction false} RunsAreSafe(c: Config, states: seq<State>, actions: seq<Action>)
    requires Run(c, states, actions)
    ensures Inv(c, states[|actions|], {})
    ensures forall a :: Enabled(c, states[|actions|], a) ==> Safe(c, states[|actions|], a)
  {
    var n := |actions|;
    if n == 0 {
      InitialHolds(c);
    } else {
      Prefix(c, states, actions, n - 1);
      RunsAreSafe(c, states[..n], actions[..n - 1]);
      ActionKeeps(c, states[n - 1], actions[n - 1]);
    }
    forall a | Enabled(c, states[n], a)
      ensures Safe(c, states[n], a)
    {
      ActionKeeps(c, states[n], a);
    }
  }

  /** Step `k` of a run starts from a state that satisfies the invariant. */
  lemma SafeAt(c: Config, states: seq<State>, actions: seq<Action>, k: nat)
    requires Run(c, states, actions) && k < |actions|
    ensures Inv(c, states[k], {}) && Step(c, states[k], actions[k], states[k + 1])
  {
    Prefix(c, states, actions, k);
    RunsAreSafe(c, states[..k + 1], actions[..k]);
  }
}
