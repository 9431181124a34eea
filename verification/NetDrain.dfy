/** The network drains: without cycles in the table, and without new messages, every
    message is delivered within a number of cycles that can be told in advance. */
module NetDrain {
  import opened Sequences
  import opened Topology
  import opened Routes
  import opened Dependencies
  import opened NetState
  import opened NetInvariant
  import opened NetPrimitives
  import opened NetHandlers
  import opened NetRuns
  import opened NetArbiter
  import opened NetAccounting
  import opened NetProgress
  import NetOrder
  import opened NetTiming

  // ---- How far messages still have to go ----

  /** The links that the message still has to cross. */
  ghost function LinksLeft(c: Config, m: Msg): nat {
    if ValidConfig(c) && exists k: nat :: Remaining(c, m, k) then
      var k: nat :| Remaining(c, m, k);
      k
    else 0
  }

  /** The cycles that a link or a crossbar takes for a message. */
  ghost function Cycles(size: nat, bandwidth: nat): nat {
    if size >= 1 && bandwidth >= 1 then Latency(size, bandwidth) else 0
  }

  /** The cycles from an output buffer of node `u`, or from an input buffer, over the `k`
      links that are left to `v`, and one for the delivery. */
  ghost function CyclesFrom(c: Config, u: nat, v: nat, size: nat, k: nat, input: bool): nat
    decreases k, input
  {
    if k == 0 || u >= |c.table| || v >= |c.table[u]| || !(0 <= c.table[u][v].out < |c.net.links|) || u >= |c.net.nodes| then 1
    else if input then Cycles(size, c.net.nodes[u].bandwidth) + CyclesFrom(c, u, v, size, k, false)
    else
      var link := c.net.links[c.table[u][v].out];
      Cycles(size, link.bandwidth) + CyclesFrom(c, link.dst, v, size, k - 1, true)
  }

  /** The cycles that a message will be moved in. */
  ghost function Work(c: Config, m: Msg): nat {
    CyclesFrom(c, m.node, m.dst, m.size, LinksLeft(c, m), m.buffer >= |c.net.links|)
  }

  lemma LinksLeftIs(c: Config, m: Msg, k: nat)
    requires ValidConfig(c) && Remaining(c, m, k)
    ensures LinksLeft(c, m) == k
  {
    HopsUnique(c.net, c.table, m.node, m.dst, k, LinksLeft(c, m));
  }

  /** A move takes as many cycles off as it takes. */
  lemma MoveWorks(c: Config, m: Msg, to: nat, until: int)
    requires ValidConfig(c) && RoutedMsg(c, m) && IsBuffer(c, to)
    requires if m.buffer < |c.net.links| then to == InputOf(c, m.buffer) else IsNextOutput(c, m, to)
    ensures Work(c, m) == Work(c, Moved(c, m, to, until)) + Cycles(m.size, Bandwidth(c, m))
  {
    var k: nat :| Remaining(c, m, k);
    LinksLeftIs(c, m, k);
    var moved := Moved(c, m, to, until);
    assert Linked(c.net, m.node, c.table[m.node][m.dst]);
    if m.buffer < |c.net.links| {
      assert Remaining(c, moved, k - 1);
      LinksLeftIs(c, moved, k - 1);
    } else {
      assert Remaining(c, moved, k);
      LinksLeftIs(c, moved, k);
    }
  }

  lemma {:induction false} AlwaysCycles(c: Config, u: nat, v: nat, size: nat, k: nat, input: bool)
    ensures CyclesFrom(c, u, v, size, k, input) >= 1
    decreases k, input
  {
    if !(k == 0 || u >= |c.table| || v >= |c.table[u]| || !(0 <= c.table[u][v].out < |c.net.links|) || u >= |c.net.nodes|) {
      if input {
        AlwaysCycles(c, u, v, size, k, false);
      } else {
        AlwaysCycles(c, c.net.links[c.table[u][v].out].dst, v, size, k - 1, true);
      }
    }
  }

  /** The work of all messages in flight. */
  ghost function Load(c: Config, f: map<nat, Msg>): nat
    decreases |f|
  {
    if f == map[] then 0
    else
      var id :| id in f;
      OneLess(f, id);
      Work(c, f[id]) + Load(c, f - {id})
  }

  lemma {:induction false} LoadWithout(c: Config, f: map<nat, Msg>, id: nat)
    requires id in f
    ensures Load(c, f) == Work(c, f[id]) + Load(c, f - {id})
    decreases |f|
  {
    var x :| x in f && Load(c, f) == Work(c, f[x]) + Load(c, f - {x});
    if x != id {
      OneLess(f, x);
      OneLess(f, id);
      LoadWithout(c, f - {x}, id);
      LoadWithout(c, f - {id}, x);
      assert f - {x} - {id} == f - {id} - {x};
    }
  }

  lemma LoadAfterMove(c: Config, f: map<nat, Msg>, id: nat, m: Msg)
    requires id in f
    ensures Load(c, f[id := m]) + Work(c, f[id]) == Load(c, f) + Work(c, m)
  {
    LoadWithout(c, f, id);
    LoadWithout(c, f[id := m], id);
    assert f[id := m] - {id} == f - {id};
  }

  // ---- A cycle in which everything is free ----

  /** The scheduler has decided in this cycle for the output buffer where the message of
      the event goes. */
  ghost predicate Passed(c: Config, s: State, e: Event) {
    && e.resume.InputBuffer? && e.resume.id in s.flight
    && exists out: nat :: out < |s.buffers| && IsNextOutput(c, s.flight[e.resume.id], out) && s.buffers[out].schedWhen == s.cycle
  }

  /** Its decision is for a message whose event is still to come in this cycle, and which
      can then cross. */
  ghost predicate Promised(c: Config, s: State, out: nat)
    requires |s.buffers| == 2 * |c.net.links| && out < |s.buffers|
  {
    var g := s.buffers[out].schedBuffer;
    && |c.net.links| <= g < |s.buffers|
    && s.buffers[g].msgs != [] && s.buffers[g].msgs[0] in s.flight
    && var id := s.buffers[g].msgs[0];
    && IsNextOutput(c, s.flight[id], out) && Owner(c, out) < |c.net.nodes|
    && s.buffers[out].count + s.flight[id].size <= Capacity(c, out)
    && Event(s.cycle, InputBuffer(id)) in s.events
  }

  /** The same while event `e` is being handled. */
  ghost predicate QuietBut(c: Config, s: State, e: Event) {
    Quiet(c, s.(events := s.events + [e]))
  }

  ghost predicate Quiet(c: Config, s: State) {
    && |s.buffers| == 2 * |c.net.links|
    && (forall e :: e in s.events ==> e.time == s.cycle || Passed(c, s, e))
    && (forall out: nat :: out < |s.buffers| && s.buffers[out].schedWhen == s.cycle ==> Promised(c, s, out))
  }

  /** Whoever may be granted is on its way to the output buffer. */
  lemma GrantedIsHead(c: Config, s: State, out: nat, g: nat)
    requires ValidConfig(c) && Placed(c, s) && Routed(c, s) && IsBuffer(c, out) && Owner(c, out) < |c.net.nodes|
    requires c.net.nodes[Owner(c, out)].kind == Switch && out < |c.net.links|
    requires Grantable(c, s, out, g)
    ensures var id := s.buffers[g].msgs[0];
      && id in s.flight && s.flight[id].buffer == g && g >= |c.net.links| && IsHead(s, id)
      && IsNextOutput(c, s.flight[id], out)
      && s.buffers[out].count + s.flight[id].size <= Capacity(c, out)
  {
    var id := s.buffers[g].msgs[0];
    assert PlacedBuffer(s, g) && PlacedMsg(c, s, id) && RoutedMsg(c, s.flight[id]);
  }

  /** A message that is in no wakeup list, not announced and not in hand has an event. */
  lemma HasEvent(c: Config, s: State, id: nat, handled: set<nat>) returns (i: nat)
    requires Conserved(s, handled) && id in s.flight && id !in s.awaiting && id !in handled
    requires Message(id) !in Waiting(s.buffers)
    ensures i < |s.events| && s.events[i].resume.Who() == Message(id)
  {
    assert ConservedMsg(s, handled, id);
    var ps := EventParties(s.events);
    assert Message(id) in multiset(ps);
    i :| i < |ps| && ps[i] == Message(id);
  }

  /** Whoever is granted has an event: it waits for nothing. */
  lemma GrantedHasEvent(c: Config, s: State, out: nat, g: nat, handled: nat) returns (i: nat)
    requires Inv(c, s, {handled}) && IsBuffer(c, out) && Owner(c, out) < |c.net.nodes|
    requires c.net.nodes[Owner(c, out)].kind == Switch && out < |c.net.links|
    requires Grantable(c, s, out, g) && s.buffers[g].msgs[0] != handled
    ensures var id := s.buffers[g].msgs[0];
      && id in s.flight && IsNextOutput(c, s.flight[id], out)
      && i < |s.events| && s.events[i].resume == InputBuffer(id)
  {
    GrantedIsHead(c, s, out, g);
    var id := s.buffers[g].msgs[0];
    HeadWaitsForRoom(c, s, id, out);
    i := HasEvent(c, s, id, {handled});
    assert EventOk(c, s, s.events[i]);
  }

  /** The head of an input buffer that has room ahead is in no wakeup list. */
  lemma HeadWaitsForRoom(c: Config, s: State, id: nat, out: nat)
    requires ValidConfig(c) && Placed(c, s) && WakeupsOk(c, s) && id in s.flight
    requires IsBuffer(c, s.flight[id].buffer) && s.flight[id].buffer >= |c.net.links| && IsHead(s, id)
    requires IsNextOutput(c, s.flight[id], out) && out < |s.buffers| && IsBuffer(c, out) && Owner(c, out) < |c.net.nodes|
    requires s.buffers[out].count + s.flight[id].size <= Capacity(c, out)
    ensures Message(id) !in Waiting(s.buffers)
  {
    if Message(id) in Waiting(s.buffers) {
      var b, j := WaitingFind(s.buffers, Message(id));
      assert false;
    }
  }

  /** Whether the decision for `out` was in favour of message `id`. */
  ghost predicate PromisedTo(s: State, out: nat, id: nat)
    requires out < |s.buffers|
  {
    var g := s.buffers[out].schedBuffer;
    0 <= g < |s.buffers| && s.buffers[g].msgs != [] && s.buffers[g].msgs[0] == id
  }

  ghost predicate NotPromised(s: State, e: Event) {
    forall out: nat :: out < |s.buffers| && s.buffers[out].schedWhen == s.cycle ==>
      e.resume.InputBuffer? ==> !PromisedTo(s, out, e.resume.id)
  }

  /** An event is handled that nobody relies on, without a decision. */
  lemma StaysQuiet(c: Config, s: State, e: Event, t: State, more: seq<Event>)
    requires QuietBut(c, s, e) && Rests(s, t) && SameSched(s, t) && NotPromised(s, e)
    requires t.events == s.events + more
    requires forall x :: x in more ==> x.time == t.cycle || Passed(c, t, x)
    ensures Quiet(c, t)
  {
    var q := s.(events := s.events + [e]);
    forall x | x in t.events
      ensures x.time == t.cycle || Passed(c, t, x)
    {
      if x in s.events && x.time != t.cycle {
        assert x in q.events && Passed(c, q, x);
        PassedStays(c, q, t, x);
      }
    }
    forall out: nat | out < |t.buffers| && t.buffers[out].schedWhen == t.cycle
      ensures Promised(c, t, out)
    {
      assert Promised(c, q, out);
      PromiseStays(c, s, e, t, out);
    }
  }

  lemma PassedStays(c: Config, s: State, t: State, x: Event)
    requires Passed(c, s, x) && t.cycle == s.cycle && t.flight == s.flight && |t.buffers| == |s.buffers|
    requires forall out: nat :: out < |s.buffers| && s.buffers[out].schedWhen == s.cycle ==> t.buffers[out].schedWhen == t.cycle
    ensures Passed(c, t, x)
  {
  }

  lemma PromiseStays(c: Config, s: State, e: Event, t: State, out: nat)
    requires |s.buffers| == 2 * |c.net.links| && out < |s.buffers|
    requires Promised(c, s.(events := s.events + [e]), out) && Rests(s, t)
    requires t.buffers[out].schedBuffer == s.buffers[out].schedBuffer
    requires e.resume.InputBuffer? ==> !PromisedTo(s, out, e.resume.id)
    requires forall x :: x in s.events ==> x in t.events
    ensures Promised(c, t, out)
  {
    var g := s.buffers[out].schedBuffer;
    assert SamePorts(s.buffers[g], t.buffers[g]) && SamePorts(s.buffers[out], t.buffers[out]);
    assert Event(s.cycle, InputBuffer(s.buffers[g].msgs[0])) in s.events;
  }

  lemma PromisedIsHead(c: Config, s: State, e: Event, out: nat, id: nat)
    requires Placed(c, s) && out < |s.buffers| && Promised(c, s.(events := s.events + [e]), out) && PromisedTo(s, out, id)
    ensures id in s.flight && s.flight[id].buffer == s.buffers[out].schedBuffer && IsHead(s, id)
    ensures IsNextOutput(c, s.flight[id], out)
  {
    assert PlacedBuffer(s, s.buffers[out].schedBuffer);
  }

  /** A message that rests in an output buffer waits. */
  lemma OutputWaits(c: Config, s: State, id: nat)
    requires Handles(c, s, id) && (IsHead(s, id) ==> MayDepart(c, s, id)) && s.flight[id].buffer < |c.net.links|
    requires FreeBy(s, s.cycle - 1) && Rests(s, OutputStep(c, s, id))
    ensures SameSched(s, OutputStep(c, s, id)) && OutputStep(c, s, id).events == s.events
  {
    assert WellFormedLink(c.net, c.net.links[s.flight[id].buffer]);
  }

  lemma QuietInput(c: Config, s: State, id: nat, e: Event)
    requires Inv(c, s, {id}) && id in s.flight && s.flight[id].buffer >= |c.net.links| && s.flight[id].busy < s.cycle
    requires e.resume == InputBuffer(id) && QuietBut(c, s, e) && FreeBy(s, s.cycle - 1)
    requires Handles(c, s, id) && (s.flight[id].node != s.flight[id].dst ==> InTransit(c, s.flight[id]))
    requires Rests(s, InputStep(c, s, id))
    ensures Quiet(c, InputStep(c, s, id))
  {
    var m := s.flight[id];
    if !IsHead(s, id) || m.node == m.dst {
      forall out: nat | out < |s.buffers| && s.buffers[out].schedWhen == s.cycle
        ensures !PromisedTo(s, out, id)
      {
        if PromisedTo(s, out, id) {
          PromisedIsHead(c, s, e, out, id);
        }
      }
      if !IsHead(s, id) {
        StaysQuiet(c, s, e, InputStep(c, s, id), []);
      } else {
        StaysQuiet(c, s, e, InputStep(c, s, id), [Event(s.cycle, Receive(id))]);
      }
    } else {
      var out := CrossingAllowed(c, s, id);
      QuietCross(c, s, id, e, out);
    }
  }

  /** A message that rests although its output buffer is free and has room was not
      granted, and tries again in the next cycle. */
  lemma TurnedDown(c: Config, s: State, id: nat, out: nat)
    requires MayCross(c, s, id, out) && s.buffers[out].writeBusy < s.cycle
    requires s.buffers[out].count + s.flight[id].size <= Capacity(c, out)
    requires Rests(s, CrossStep(c, s, id))
    ensures NodeSchedule(c, s, out).buffers[out].schedBuffer != s.flight[id].buffer
    ensures CrossStep(c, s, id) == NetState.Schedule(NodeSchedule(c, s, out), InputBuffer(id), 1)
  {
    var d := NodeSchedule(c, s, out);
    DecisionRests(c, s, out);
    StillDeparts(c, s, id, out);
    if d.buffers[out].schedBuffer == s.flight[id].buffer {
      ThroughSwitchShifts(c, s, d, id, out);
    }
  }

  lemma QuietCross(c: Config, s: State, id: nat, e: Event, out: nat)
    requires Inv(c, s, {id}) && MayCross(c, s, id, out) && s.flight[id].busy < s.cycle
    requires e.resume == InputBuffer(id) && QuietBut(c, s, e) && FreeBy(s, s.cycle - 1)
    requires Rests(s, CrossStep(c, s, id))
    ensures Quiet(c, CrossStep(c, s, id))
  {
    if s.buffers[out].count + s.flight[id].size > Capacity(c, out) {
      NotGranted(c, s, id, e, out);
      WaitRests(s, out, InputBuffer(id));
      StaysQuiet(c, s, e, Wait(s, out, InputBuffer(id)), []);
    } else {
      TurnedDown(c, s, id, out);
      if s.buffers[out].schedWhen == s.cycle {
        QuietAgain(c, s, id, e, out);
      } else {
        QuietDecision(c, s, id, e, out);
      }
    }
  }

  /** The decision of this cycle was in favour of another message. */
  lemma QuietAgain(c: Config, s: State, id: nat, e: Event, out: nat)
    requires Inv(c, s, {id}) && MayCross(c, s, id, out) && e.resume == InputBuffer(id) && QuietBut(c, s, e)
    requires s.buffers[out].schedWhen == s.cycle && s.buffers[out].schedBuffer != s.flight[id].buffer
    ensures Quiet(c, NetState.Schedule(s, InputBuffer(id), 1))
  {
    NotGranted(c, s, id, e, out);
    TriesAgain(c, s, id, e, out);
  }

  lemma TriesAgain(c: Config, s: State, id: nat, e: Event, out: nat)
    requires QuietBut(c, s, e) && NotPromised(s, e) && id in s.flight && out < |s.buffers|
    requires IsNextOutput(c, s.flight[id], out) && s.buffers[out].schedWhen == s.cycle
    ensures Quiet(c, NetState.Schedule(s, InputBuffer(id), 1))
  {
    var t := NetState.Schedule(s, InputBuffer(id), 1);
    assert Passed(c, t, Event(s.cycle + 1, InputBuffer(id)));
    StaysQuiet(c, s, e, t, [Event(s.cycle + 1, InputBuffer(id))]);
  }

  /** The message of the event was not granted its output buffer, or does not fit there. */
  lemma NotGranted(c: Config, s: State, id: nat, e: Event, out: nat)
    requires Inv(c, s, {id}) && MayCross(c, s, id, out)
    requires e.resume == InputBuffer(id) && QuietBut(c, s, e)
    requires s.buffers[out].schedWhen != s.cycle || s.buffers[out].schedBuffer != s.flight[id].buffer
             || s.buffers[out].count + s.flight[id].size > Capacity(c, out)
    ensures NotPromised(s, e)
  {
    forall o: nat | o < |s.buffers| && s.buffers[o].schedWhen == s.cycle
      ensures !PromisedTo(s, o, id)
    {
      if PromisedTo(s, o, id) {
        PromisedIsHead(c, s, e, o, id);
      }
    }
  }

  /** The first decision of the cycle for an output buffer, in favour of another message. */
  lemma QuietDecision(c: Config, s: State, id: nat, e: Event, out: nat)
    requires Inv(c, s, {id}) && MayCross(c, s, id, out) && s.flight[id].busy < s.cycle
    requires e.resume == InputBuffer(id) && QuietBut(c, s, e) && FreeBy(s, s.cycle - 1)
    requires s.buffers[out].count + s.flight[id].size <= Capacity(c, out) && s.buffers[out].schedWhen != s.cycle
    requires Decide(c, s, out) != s.flight[id].buffer
    ensures Quiet(c, NetState.Schedule(NodeSchedule(c, s, out), InputBuffer(id), 1))
  {
    SomebodyGranted(c, s, id, out);
    var g := Decide(c, s, out);
    NotGranted(c, s, id, e, out);
    PromiseMade(c, s, id, e, out, g);
    var t := NetState.Schedule(NodeSchedule(c, s, out), InputBuffer(id), 1);
    Decided(c, s, id, out, t);
    AfterDecision(c, s, id, e, out, g, t);
  }

  lemma SomebodyGranted(c: Config, s: State, id: nat, out: nat)
    requires ValidConfig(c) && MayCross(c, s, id, out) && s.flight[id].busy < s.cycle && FreeBy(s, s.cycle - 1)
    requires s.buffers[out].count + s.flight[id].size <= Capacity(c, out)
    ensures Decide(c, s, out) >= 0 && Grantable(c, s, out, Decide(c, s, out))
  {
    var b := s.flight[id].buffer;
    assert PlacedMsg(c, s, id);
    assert Grantable(c, s, out, b);
    DecisionIsExact(c, s, out, b);
  }

  lemma Decided(c: Config, s: State, id: nat, out: nat, t: State)
    requires Shape(c, s) && IsBuffer(c, out) && Owner(c, out) < |c.net.nodes| && s.buffers[out].schedWhen != s.cycle
    requires t == NetState.Schedule(NodeSchedule(c, s, out), InputBuffer(id), 1)
    ensures t.events == s.events + [Event(s.cycle + 1, InputBuffer(id))]
    ensures t.cycle == s.cycle && t.flight == s.flight && t.links == s.links
    ensures t.buffers == s.buffers[out := s.buffers[out].(schedWhen := s.cycle, schedBuffer := Decide(c, s, out))]
  {
  }

  /** Whoever is granted has its event in this cycle. */
  lemma PromiseMade(c: Config, s: State, id: nat, e: Event, out: nat, g: nat)
    requires Inv(c, s, {id}) && MayCross(c, s, id, out)
    requires e.resume == InputBuffer(id) && QuietBut(c, s, e)
    requires s.buffers[out].schedWhen != s.cycle && Grantable(c, s, out, g) && g != s.flight[id].buffer
    ensures MayBePromised(c, s, out, g)
  {
    GrantedIsHead(c, s, out, g);
    var i := GrantedHasEvent(c, s, out, g, id);
    var granted := s.events[i];
    var q := s.(events := s.events + [e]);
    assert granted in q.events && !Passed(c, q, granted);
  }

  ghost predicate MayBePromised(c: Config, s: State, out: nat, g: nat)
    requires |s.buffers| == 2 * |c.net.links| && out < |s.buffers|
  {
    Promised(c, s.(buffers := s.buffers[out := s.buffers[out].(schedBuffer := g)]), out)
  }

  lemma AfterDecision(c: Config, s: State, id: nat, e: Event, out: nat, g: nat, t: State)
    requires QuietBut(c, s, e) && NotPromised(s, e) && e.resume == InputBuffer(id)
    requires |s.buffers| == 2 * |c.net.links| && out < |s.buffers| && MayBePromised(c, s, out, g)
    requires id in s.flight && IsNextOutput(c, s.flight[id], out)
    requires s.buffers[out].schedWhen != s.cycle
    requires t.events == s.events + [Event(s.cycle + 1, InputBuffer(id))]
    requires t.cycle == s.cycle && t.flight == s.flight && t.links == s.links
    requires t.buffers == s.buffers[out := s.buffers[out].(schedWhen := s.cycle, schedBuffer := g)]
    ensures Quiet(c, t)
  {
    var q := s.(events := s.events + [e]);
    forall x | x in t.events
      ensures x.time == t.cycle || Passed(c, t, x)
    {
      if x in s.events && x.time != t.cycle {
        assert x in q.events && Passed(c, q, x);
        PassedStays(c, q, t, x);
      }
    }
    forall o: nat | o < |t.buffers| && t.buffers[o].schedWhen == t.cycle
      ensures Promised(c, t, o)
    {
      if o != out {
        assert Promised(c, q, o);
        PromiseStays(c, s, e, t, o);
      }
    }
  }

  /** Handling an event of a quiet cycle moves a message, or the cycle stays quiet. */
  lemma QuietHandler(c: Config, s: State, e: Event, t: State)
    requires Inv(c, s, InHand(e.resume)) && EventOk(c, s, e) && e.time == s.cycle
    requires SafeHandler(c, s, e.resume) && t == Handler(c, s, e.resume) && Rests(s, t)
    requires QuietBut(c, s, e) && FreeBy(s, s.cycle - 1)
    ensures Quiet(c, t)
  {
    match e.resume
    case OutputBuffer(id) =>
      HandlesMsg(c, s, id);
      OutputWaits(c, s, id);
      StaysQuiet(c, s, e, t, []);
    case InputBuffer(id) =>
      HandlesMsg(c, s, id);
      QuietInput(c, s, id, e);
    case Receive(id) =>
      assert id in t.flight;
      StaysQuiet(c, s, e, t, []);
    case Retry(_) =>
      StaysQuiet(c, s, e, t, []);
  }

  /** Handling an event of a quiet cycle, as a step of a run. */
  lemma QuietStep(c: Config, s: State, at: nat)
    requires Inv(c, s, {}) && Enabled(c, s, Handle(at)) && Safe(c, s, Handle(at))
    requires Quiet(c, s) && FreeBy(s, s.cycle - 1) && Rests(s, Apply(c, s, Handle(at)))
    ensures Quiet(c, Apply(c, s, Handle(at)))
  {
    var p, e := Pop(s, at), s.events[at];
    PopKeeps(c, s, at);
    CoreEvent(c, s, p, e);
    var q := p.(events := p.events + [e]);
    forall x | x in q.events
      ensures x in s.events
    {
    }
    forall x | x in s.events
      ensures x in q.events
    {
      var i :| 0 <= i < |s.events| && s.events[i] == x;
      assert i < at ==> p.events[i] == x;
      assert i > at ==> p.events[i - 1] == x;
      assert q.events[|p.events|] == e;
    }
    SameEventsQuiet(c, s, q);
    QuietHandler(c, p, e, Apply(c, s, Handle(at)));
  }

  lemma SameEventsQuiet(c: Config, s: State, t: State)
    requires Quiet(c, s) && t == s.(events := t.events)
    requires forall x :: x in t.events <==> x in s.events
    ensures Quiet(c, t)
  {
    forall x | x in t.events
      ensures x.time == t.cycle || Passed(c, t, x)
    {
      assert x.time == s.cycle || Passed(c, s, x);
    }
    forall out: nat | out < |t.buffers| && t.buffers[out].schedWhen == t.cycle
      ensures Promised(c, t, out)
    {
      assert Promised(c, s, out);
    }
  }

  lemma DecisionMeansEvent(c: Config, s: State, out: nat)
    requires Quiet(c, s) && out < |s.buffers|
    ensures s.buffers[out].schedWhen == s.cycle ==> exists i :: 0 <= i < |s.events| && s.events[i].time == s.cycle
  {
    if s.buffers[out].schedWhen == s.cycle {
      assert Promised(c, s, out);
    }
  }

  /** A cycle cannot end quietly while a message is in flight. */
  lemma QuietEnd(c: Config, s: State)
    requires Inv(c, s, {}) && Quiet(c, s) && s.awaiting == {} && Enabled(c, s, Advance)
    requires IsGraph(SearchGraph(c.net, c.table)) && !Detected(SearchGraph(c.net, c.table))
    ensures s.flight == map[]
  {
    forall out: nat | out < |s.buffers|
      ensures s.buffers[out].schedWhen != s.cycle
    {
      DecisionMeansEvent(c, s, out);
    }
    forall e | e in s.events
      ensures Passed(c, s, e)
    {
    }
    assert !Lively(s);
    if id :| id in s.flight {
      StalledIsCyclic(c, s, id);
      DetectionIsExact(c.net, c.table);
    }
  }

  // ---- What holds in every state of a run ----

  /** Decisions are not ahead of the clock, and events are due when all is free. */
  ghost predicate Timely(s: State) {
    && (forall b: nat :: b < |s.buffers| ==> s.buffers[b].schedWhen <= s.cycle)
    && (forall h :: FreeBy(s, h) ==> Due(s, h))
  }

  lemma FreeBefore(s: State, t: State, h: int)
    requires NoEarlier(s, t) && FreeBy(t, h)
    ensures FreeBy(s, h)
  {
  }

  lemma TimelyStep(c: Config, s: State, a: Action)
    requires Inv(c, s, {}) && Enabled(c, s, a) && Timely(s)
    ensures Safe(c, s, a) && Timely(Apply(c, s, a))
  {
    ActionServes(c, s, a);
    var t := Apply(c, s, a);
    forall b: nat | b < |t.buffers|
      ensures t.buffers[b].schedWhen <= t.cycle
    {
      assert WellFormedLink(c.net, c.net.links[LinkOf(c, b)]);
      ActionDecides(c, s, a, b);
    }
    if a.Handle? || a.Take? {
      ActionOutcome(c, s, a);
    } else if a.Send? {
      SendDue(c, s, a.src, a.dst, a.size, a.notify, a.tag);
    }
    forall h | FreeBy(t, h)
      ensures Due(t, h)
    {
      if !a.Advance? {
        ServesNoEarlier(c, s, t);
        FreeBefore(s, t, h);
        assert Due(s, h);
      } else {
        assert FreeBy(s, h) && Due(s, h);
      }
    }
  }

  lemma SendDue(c: Config, s: State, src: nat, dst: nat, size: nat, notify: bool, tag: nat)
    requires Inv(c, s, {}) && Deliverable(c, src, dst, size)
    ensures DueKept(s, TrySend(c, s, src, dst, size, notify, tag))
  {
    var out, k := FirstOutput(c, src, dst, size);
    var t := TrySend(c, s, src, dst, size, notify, tag);
    forall h | FreeBy(s, h) && FreeBy(t, h) && Due(s, h)
      ensures Due(t, h)
    {
      assert s.buffers[out].writeBusy <= h;
    }
  }

  lemma {:induction false} RunsAreTimely(c: Config, states: seq<State>, actions: seq<Action>, k: nat)
    requires Run(c, states, actions) && k <= |actions|
    ensures Timely(states[k])
    decreases k
  {
    if k > 0 {
      RunsAreTimely(c, states, actions, k - 1);
      SafeAt(c, states, actions, k - 1);
      TimelyStep(c, states[k - 1], actions[k - 1]);
    }
  }

  // ---- The budget ----

  /** When everything that is busy is free, and then the cycles that the links and the
      crossbars need for every message one after the other. */
  ghost function Budget(c: Config, s: State, h: int): int {
    Max(h + 1, s.cycle) + Load(c, s.flight)
  }

  /** The budget is within the limit, and the clock can move on without exceeding it:
      something is busy in this cycle, or a message has left, or the cycle is quiet, and
      then something will still happen. */
  ghost predicate Within(c: Config, s: State, h: int, limit: int) {
    && FreeBy(s, h)
    && Budget(c, s, h) <= limit
    && (h >= s.cycle || Budget(c, s, h) < limit || Quiet(c, s))
  }

  lemma FreeLater(s: State, h: int, g: int)
    requires FreeBy(s, h) && h <= g
    ensures FreeBy(s, g)
  {
  }

  lemma HandleWithin(c: Config, s: State, a: Action, h: int, limit: int) returns (h': int)
    requires Inv(c, s, {}) && Enabled(c, s, a) && (a.Handle? || a.Take?)
    requires Within(c, s, h, limit)
    ensures Safe(c, s, a) && Within(c, Apply(c, s, a), h', limit)
  {
    ActionOutcome(c, s, a);
    var t := Apply(c, s, a);
    h' := h;
    if id :| Goes(s, t, id) {
      GoesWithin(c, s, t, id, h, limit);
    } else if id, to, until :| Shifts(c, s, t, id, to, until) {
      ShiftWithin(c, s, t, id, to, until, h, limit);
      h' := Max(h, until);
    } else {
      RestsWithin(c, s, a, t, h, limit);
    }
  }

  lemma GoesWithin(c: Config, s: State, t: State, id: nat, h: int, limit: int)
    requires Inv(c, s, {}) && Goes(s, t, id) && Within(c, s, h, limit)
    ensures Within(c, t, h, limit)
  {
    GoesFree(s, t, id, h);
    GoesSpends(c, s, t, id);
  }

  lemma ShiftWithin(c: Config, s: State, t: State, id: nat, to: nat, until: int, h: int, limit: int)
    requires Inv(c, s, {}) && Shifts(c, s, t, id, to, until) && Within(c, s, h, limit)
    ensures Within(c, t, Max(h, until), limit)
  {
    ShiftsFree(c, s, t, id, to, until, h);
    ShiftSpends(c, s, t, id, to, until);
  }

  lemma GoesSpends(c: Config, s: State, t: State, id: nat)
    requires Inv(c, s, {}) && Goes(s, t, id)
    ensures Load(c, t.flight) < Load(c, s.flight)
  {
    var m := s.flight[id];
    AlwaysCycles(c, m.node, m.dst, m.size, LinksLeft(c, m), m.buffer >= |c.net.links|);
    LoadWithout(c, s.flight, id);
  }

  lemma ShiftSpends(c: Config, s: State, t: State, id: nat, to: nat, until: int)
    requires Inv(c, s, {}) && Shifts(c, s, t, id, to, until)
    ensures Load(c, s.flight) == Load(c, t.flight) + (until - s.cycle + 1)
  {
    var m := s.flight[id];
    assert RoutedMsg(c, m);
    MoveWorks(c, m, to, until);
    LoadAfterMove(c, s.flight, id, Moved(c, m, to, until));
  }

  lemma RestsWithin(c: Config, s: State, a: Action, t: State, h: int, limit: int)
    requires Inv(c, s, {}) && Enabled(c, s, a) && (a.Handle? || a.Take?) && Safe(c, s, a)
    requires Within(c, s, h, limit) && t == Apply(c, s, a) && Rests(s, t)
    ensures Within(c, t, h, limit)
  {
    RestsFree(s, t, h);
    if h < s.cycle && Budget(c, s, h) == limit {
      FreeLater(s, h, s.cycle - 1);
      if a.Handle? {
        QuietStep(c, s, a.at);
      }
    }
  }

  /** The clock moves on, and the limit stays. */
  lemma AdvanceWithin(c: Config, s: State, h: int, limit: int)
    requires Inv(c, s, {}) && Enabled(c, s, Advance) && Timely(s) && Within(c, s, h, limit)
    requires s.awaiting == {} && s.flight != map[]
    requires IsGraph(SearchGraph(c.net, c.table)) && !Detected(SearchGraph(c.net, c.table))
    ensures Within(c, Tick(c, s), h, limit)
  {
    var t := Tick(c, s);
    assert FreeBy(t, h);
    if h < s.cycle && Budget(c, s, h) == limit {
      QuietEnd(c, s);
    }
    if h < t.cycle {
      CycleStart(c, s, h);
    }
  }

  /** A cycle that begins with everything free begins quietly. */
  lemma CycleStart(c: Config, s: State, h: int)
    requires Inv(c, s, {}) && Enabled(c, s, Advance) && Timely(s) && FreeBy(s, h) && h <= s.cycle
    ensures Quiet(c, Tick(c, s))
  {
    assert Due(s, h);
    var t := Tick(c, s);
    forall x | x in t.events
      ensures x.time == t.cycle
    {
      var i :| 0 <= i < |s.events| && s.events[i] == x;
      assert EventOk(c, s, s.events[i]);
    }
  }

  // ---- The network drains ----

  /** Nobody sends any more, and whatever has been announced in a cycle is taken in it. */
  ghost predicate Draining(states: seq<State>, actions: seq<Action>, k: nat) {
    |states| == |actions| + 1 &&
    forall i :: k <= i < |actions| ==> !actions[i].Send? && (actions[i].Advance? ==> states[i].awaiting == {})
  }

  lemma NothingEnters(c: Config, states: seq<State>, actions: seq<Action>, i: nat)
    requires Run(c, states, actions) && i < |actions| && !actions[i].Send? && states[i].flight == map[]
    ensures states[i + 1].flight == map[]
  {
    SafeAt(c, states, actions, i);
    var s, t := states[i], states[i + 1];
    if !actions[i].Advance? {
      ActionOutcome(c, s, actions[i]);
    }
  }

  lemma StepWithin(c: Config, states: seq<State>, actions: seq<Action>, i: nat, h: int, limit: int) returns (h': int)
    requires Run(c, states, actions) && i < |actions| && !actions[i].Send?
    requires actions[i].Advance? ==> states[i].awaiting == {}
    requires IsGraph(SearchGraph(c.net, c.table)) && !Detected(SearchGraph(c.net, c.table))
    requires Within(c, states[i], h, limit) && states[i].flight != map[]
    ensures Within(c, states[i + 1], h', limit)
  {
    SafeAt(c, states, actions, i);
    h' := h;
    if actions[i].Advance? {
      RunsAreTimely(c, states, actions, i);
      AdvanceWithin(c, states[i], h, limit);
    } else {
      h' := HandleWithin(c, states[i], actions[i], h, limit);
    }
  }

  lemma {:induction false} StaysWithin(c: Config, states: seq<State>, actions: seq<Action>, k: nat, j: nat, h: int)
    returns (h': int)
    requires Run(c, states, actions) && k <= j <= |actions| && Draining(states, actions, k)
    requires IsGraph(SearchGraph(c.net, c.table)) && !Detected(SearchGraph(c.net, c.table))
    requires FreeBy(states[k], h) && states[j].flight != map[]
    ensures Within(c, states[j], h', Budget(c, states[k], h) + 1)
    decreases j
  {
    h' := h;
    if j > k {
      if states[j - 1].flight == map[] {
        NothingEnters(c, states, actions, j - 1);
      }
      h' := StaysWithin(c, states, actions, k, j - 1, h);
      h' := StepWithin(c, states, actions, j - 1, h', Budget(c, states[k], h) + 1);
    }
  }

  /** If cycle detection finds nothing in the table, nobody sends any more, and receivers
      take what is announced to them, then the network is empty one cycle after the
      budget: by the time when everything that is busy is free, plus, for each message, the
      cycles that it needs at each link and switch that it still has before it, and one for
      its delivery.
      Every message that was ever accepted has been delivered. */
  lemma NetworkDrains(c: Config, states: seq<State>, actions: seq<Action>, k: nat, j: nat, h: int)
    requires Run(c, states, actions) && k <= j <= |actions| && Draining(states, actions, k)
    requires IsGraph(SearchGraph(c.net, c.table)) && !Detected(SearchGraph(c.net, c.table))
    requires FreeBy(states[k], h) && states[j].cycle > Budget(c, states[k], h) + 1
    ensures states[j].flight == map[]
    ensures forall id: nat :: 1 <= id <= states[j].lastId ==> Delivered(states[j], id)
  {
    if states[j].flight != map[] {
      var h' := StaysWithin(c, states, actions, k, j, h);
    }
    Prefix(c, states, actions, j);
    NetOrder.RunsDeliver(c, states[..j + 1], actions[..j]);
    forall id: nat | 1 <= id <= states[j].lastId
      ensures Delivered(states[j], id)
    {
      assert NetOrder.Accounted(states[j], id);
    }
  }

  ghost predicate Delivered(s: State, id: nat) {
    exists i :: 0 <= i < |s.delivered| && s.delivered[i].0 == id
  }
}
