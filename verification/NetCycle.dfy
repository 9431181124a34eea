/** The work of one cycle ends: handling events cannot go on for ever without the clock
    moving on. */
module NetCycle {
  import opened Topology
  import opened Sequences
  import opened NetState
  import opened NetInvariant
  import opened NetPrimitives
  import opened NetHandlers
  import opened NetRuns

  // ---- How much work is left in this cycle ----

  /** An event of the current cycle weighs more when it may lead to another one. */
  function WeightOf(cycle: int, e: Event): nat {
    if e.time != cycle then 0
    else if e.resume.Receive? || e.resume.Retry? then 1
    else 2
  }

  function Weight(cycle: int, es: seq<Event>): nat {
    if es == [] then 0 else Weight(cycle, es[..|es| - 1]) + WeightOf(cycle, es[|es| - 1])
  }

  lemma {:induction false} WeightAppend(cycle: int, a: seq<Event>, b: seq<Event>)
    ensures Weight(cycle, a + b) == Weight(cycle, a) + Weight(cycle, b)
  {
    if b == [] {
      assert a + b == a;
    } else {
      WeightAppend(cycle, a, b[..|b| - 1]);
      assert (a + b)[..|a + b| - 1] == a + b[..|b| - 1];
    }
  }

  lemma {:induction false} WeightBound(cycle: int, es: seq<Event>)
    ensures Weight(cycle, es) <= 2 * |es|
  {
    if es != [] {
      WeightBound(cycle, es[..|es| - 1]);
    }
  }

  lemma WeightPop(s: State, at: nat)
    requires at < |s.events|
    ensures Weight(s.cycle, s.events) == Weight(s.cycle, Pop(s, at).events) + WeightOf(s.cycle, s.events[at])
  {
    var es := s.events;
    assert es == es[..at] + [es[at]] + es[at + 1..];
    WeightAppend(s.cycle, es[..at] + [es[at]], es[at + 1..]);
    WeightAppend(s.cycle, es[..at], [es[at]]);
    WeightAppend(s.cycle, es[..at], es[at + 1..]);
    assert [es[at]][..0] == [];
  }

  /** The messages that have not yet moved in this cycle. */
  ghost function Movable(s: State): set<nat> {
    set id | id in s.flight && s.flight[id].busy < s.cycle
  }

  function Times(a: nat, b: nat): nat {
    a * b
  }

  /** An upper bound on the events still to be handled in this cycle. */
  ghost function Rank(s: State): nat {
    Times(|s.flight| + |Movable(s)|, 2 * |Pending(s)| + 1) + Weight(s.cycle, s.events)
  }

  // ---- What handling an event does to it ----

  /** No message moves, and the event is replaced by a lighter one or by none. */
  ghost predicate Calm(s: State, t: State, weight: nat) {
    && t.cycle == s.cycle && t.flight == s.flight
    && (t.events == s.events || exists e :: t.events == s.events + [e] && WeightOf(s.cycle, e) < weight)
  }

  /** A message moves that had not moved in this cycle, or leaves. */
  ghost predicate Moves(s: State, t: State, id: nat) {
    && t.cycle == s.cycle && id in s.flight
    && (|| t.flight == s.flight - {id}
        || (&& id in t.flight && t.flight == s.flight[id := t.flight[id]]
            && s.flight[id].busy < s.cycle <= t.flight[id].busy))
  }

  ghost predicate Works(s: State, t: State, weight: nat) {
    Calm(s, t, weight) || exists id :: Moves(s, t, id)
  }

  lemma OverLinkMoves(c: Config, s: State, id: nat)
    requires MayDepart(c, s, id) && s.flight[id].buffer < |c.net.links|
    requires c.net.links[s.flight[id].buffer].bandwidth >= 1 && s.flight[id].busy < s.cycle
    ensures Moves(s, SendOverLink(c, s, id), id)
  {
    assert PlacedMsg(c, s, id);
    LatencyPositive(s.flight[id].size, c.net.links[s.flight[id].buffer].bandwidth);
    var t := SendOverLink(c, s, id);
    assert t.flight == s.flight[id := t.flight[id]];
  }

  lemma OutputStepWorks(c: Config, s: State, id: nat)
    requires Handles(c, s, id) && (IsHead(s, id) ==> MayDepart(c, s, id))
    requires s.flight[id].buffer < |c.net.links| && s.flight[id].busy < s.cycle
    ensures Works(s, OutputStep(c, s, id), 2)
  {
    assert WellFormedLink(c.net, c.net.links[s.flight[id].buffer]);
    if IsHead(s, id) {
      OverLinkMoves(c, s, id);
    }
  }

  lemma InputStepWorks(c: Config, s: State, id: nat)
    requires Inv(c, s, {id})
    requires id in s.flight && s.flight[id].buffer >= |c.net.links| && s.flight[id].busy < s.cycle
    ensures Handles(c, s, id) && (s.flight[id].node != s.flight[id].dst ==> InTransit(c, s.flight[id]))
    ensures Works(s, InputStep(c, s, id), 2)
  {
    HandlesMsg(c, s, id);
    var m := s.flight[id];
    if IsHead(s, id) && m.node != m.dst && s.buffers[m.buffer].readBusy < s.cycle {
      var out := CrossingAllowed(c, s, id);
      CrossStepWorks(c, s, id, out);
    }
  }

  lemma SchedulesCalm(s: State, t: State, r: Resume, after: int)
    requires t.cycle == s.cycle && t.flight == s.flight && t.events == s.events && after > 0
    ensures Calm(s, NetState.Schedule(t, r, after), 2)
  {
    assert NetState.Schedule(t, r, after).events == s.events + [Event(s.cycle + after, r)];
  }

  lemma CrossStepWorks(c: Config, s: State, id: nat, out: nat)
    requires MayCross(c, s, id, out) && s.flight[id].busy < s.cycle
    ensures Works(s, CrossStep(c, s, id), 2)
  {
    var r := InputBuffer(id);
    if s.buffers[out].writeBusy >= s.cycle {
      SchedulesCalm(s, s, r, Delay(s.cycle, s.buffers[out].writeBusy));
    } else if s.buffers[out].count + s.flight[id].size > Capacity(c, out) {
      assert Calm(s, NetState.Wait(s, out, r), 2);
    } else {
      var d := NodeSchedule(c, s, out);
      StillDeparts(c, s, id, out);
      SchedulesCalm(s, d, r, 1);
      ThroughSwitchMoves(c, d, id, out);
      assert Moves(s, SendThroughSwitch(c, d, id, out), id);
    }
  }

  lemma ThroughSwitchMoves(c: Config, s: State, id: nat, out: nat)
    requires MayDepart(c, s, id) && IsBuffer(c, out)
    requires s.flight[id].node < |c.net.nodes| && c.net.nodes[s.flight[id].node].bandwidth >= 1
    requires s.flight[id].busy < s.cycle
    ensures Moves(s, SendThroughSwitch(c, s, id, out), id)
  {
    assert PlacedMsg(c, s, id);
    LatencyPositive(s.flight[id].size, c.net.nodes[s.flight[id].node].bandwidth);
    var t := SendThroughSwitch(c, s, id, out);
    assert t.flight == s.flight[id := t.flight[id]];
  }

  lemma HandlerPending(c: Config, s: State, e: Event)
    requires Inv(c, s, InHand(e.resume)) && EventOk(c, s, e) && e.time == s.cycle
    ensures SafeHandler(c, s, e.resume)
    ensures |Pending(Handler(c, s, e.resume))| <= |Pending(s)| + 1
  {
    HandlerKeeps(c, s, e);
  }

  lemma ReceiveStepWorks(c: Config, s: State, id: nat)
    requires Handles(c, s, id) && IsHead(s, id)
    ensures Works(s, ReceiveStep(c, s, id), 1)
  {
    var t := ReceiveStep(c, s, id);
    assert if s.flight[id].notify then Calm(s, t, 1) else Moves(s, t, id);
  }

  lemma HandlerWorks(c: Config, s: State, e: Event)
    requires Inv(c, s, InHand(e.resume)) && EventOk(c, s, e) && e.time == s.cycle
    ensures SafeHandler(c, s, e.resume)
    ensures Works(s, Handler(c, s, e.resume), WeightOf(s.cycle, e))
  {
    HandlerPending(c, s, e);
    match e.resume
    case OutputBuffer(id) =>
      HandlesMsg(c, s, id);
      OutputStepWorks(c, s, id);
    case InputBuffer(id) => InputStepWorks(c, s, id);
    case Receive(id) => ReceiveStepWorks(c, s, id);
    case Retry(_) =>
  }

  lemma CalmRank(s: State, p: State, t: State, weight: nat)
    requires p.cycle == s.cycle && p.flight == s.flight && weight > 0
    requires Weight(s.cycle, s.events) == Weight(s.cycle, p.events) + weight
    requires Calm(p, t, weight) && |Pending(t)| <= |Pending(s)|
    ensures Rank(t) < Rank(s)
  {
    if t.events != p.events {
      var e :| t.events == p.events + [e] && WeightOf(s.cycle, e) < weight;
      WeightAppend(s.cycle, p.events, [e]);
      assert [e][..0] == [];
    }
    assert Movable(t) == Movable(s);
    TimesGrows(|s.flight| + |Movable(s)|, 2 * |Pending(t)| + 1, 2 * |Pending(s)| + 1);
  }

  lemma TimesGrows(a: nat, x: nat, y: nat)
    requires x <= y
    ensures Times(a, x) <= Times(a, y) && Times(x, a) <= Times(y, a)
  {
  }

  lemma FewerToMove(s: State, p: State, t: State, id: nat)
    requires p.cycle == s.cycle && p.flight == s.flight && Moves(p, t, id)
    ensures |t.flight| + |Movable(t)| < |s.flight| + |Movable(s)|
  {
    if id in t.flight {
      assert Movable(t) == Movable(s) - {id} && id in Movable(s);
      assert t.flight.Keys == s.flight.Keys;
    } else {
      assert Movable(t) <= Movable(s);
      SubsetSize(Movable(t), Movable(s));
      assert s.flight.Keys == t.flight.Keys + {id};
    }
  }

  lemma LessToDo(after: nat, before: nat, x: nat, y: nat, weight: nat)
    requires after < before && x <= y && weight < x
    ensures Times(after, x) + weight < Times(before, y)
  {
    TimesGrows(before, x, y);
    TimesGrows(x, after + 1, before);
    assert Times(after + 1, x) == Times(after, x) + x;
  }

  lemma MovesRank(s: State, p: State, t: State, id: nat)
    requires p.cycle == s.cycle && p.flight == s.flight
    requires Moves(p, t, id) && |Pending(t)| <= |Pending(s)|
    ensures Rank(t) < Rank(s)
  {
    FewerToMove(s, p, t, id);
    WeightBound(t.cycle, t.events);
    EventsArePending(t);
    LessToDo(|t.flight| + |Movable(t)|, |s.flight| + |Movable(s)|,
             2 * |Pending(t)| + 1, 2 * |Pending(s)| + 1, Weight(t.cycle, t.events));
  }

  lemma EventsArePending(s: State)
    ensures |s.events| <= |Pending(s)|
  {
    MultisetSize(EventParties(s.events));
  }

  lemma {:induction false} MultisetSize<T>(s: seq<T>)
    ensures |multiset(s)| == |s|
  {
    if s != [] {
      MultisetSize(s[..|s| - 1]);
      assert s == s[..|s| - 1] + [s[|s| - 1]];
    }
  }

  /** Handling any event of the current cycle leaves less to do in it. */
  lemma HandlingRanks(c: Config, s: State, at: nat)
    requires Inv(c, s, {}) && Enabled(c, s, Handle(at))
    ensures Safe(c, s, Handle(at))
    ensures Rank(Apply(c, s, Handle(at))) < Rank(s)
  {
    ActionKeeps(c, s, Handle(at));
    var e := s.events[at];
    var p := Pop(s, at);
    PopKeeps(c, s, at);
    CoreEvent(c, s, p, e);
    PopPending(s, at);
    WeightPop(s, at);
    HandlerWorks(c, p, e);
    HandlerPending(c, p, e);
    var t := Apply(c, s, Handle(at));
    if Calm(p, t, WeightOf(s.cycle, e)) {
      CalmRank(s, p, t, WeightOf(s.cycle, e));
    } else {
      var id :| Moves(p, t, id);
      MovesRank(s, p, t, id);
    }
  }

  lemma StepRanks(c: Config, states: seq<State>, actions: seq<Action>, k: nat)
    requires Run(c, states, actions) && k < |actions| && actions[k].Handle?
    ensures Rank(states[k + 1]) < Rank(states[k])
  {
    SafeAt(c, states, actions, k);
    HandlingRanks(c, states[k], actions[k].at);
  }

  /** However the heap orders its events, a run handles at most as many in a row as the
      rank says before the clock moves on: a cycle never lasts for ever. */
  lemma {:induction false} CycleIsBounded(c: Config, states: seq<State>, actions: seq<Action>, j: nat, k: nat)
    requires Run(c, states, actions) && j <= k <= |actions|
    requires forall i :: j <= i < k ==> actions[i].Handle?
    ensures k - j <= Rank(states[j]) - Rank(states[k])
    decreases k
  {
    if j < k {
      CycleIsBounded(c, states, actions, j, k - 1);
      StepRanks(c, states, actions, k - 1);
    }
  }
}
