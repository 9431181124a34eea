/** The round-robin arbiter of the crossbar: it grants whenever it can, and nobody who
    can be granted is passed over for more than one round. */
module NetArbiter {
  import opened Topology
  import opened Sequences
  import opened NetState
  import opened NetInvariant
  import opened NetPrimitives
  import opened NetHandlers
  import opened NetRuns
  import opened NetAccounting

  /** The number of candidates between `last` and position `k`, going round. */
  function Around(n: nat, last: nat, k: nat): (d: nat)
    requires last < n && k < n
    ensures d < n
  {
    if k > last then k - last - 1 else k + n - last - 1
  }

  lemma AroundIsCyclic(n: nat, last: nat, i: nat)
    requires last < n && i < n
    ensures Around(n, last, Candidate(last, i, n)) == i
  {
    if last + i + 1 < n {
      assert (last + i + 1) % n == last + i + 1;
    } else {
      assert (last + i + 1) % n == last + i + 1 - n;
    }
  }

  /** The search grants the eligible input nearest to the last one granted. */
  lemma {:induction false} SearchFindsNearest(c: Config, s: State, out: nat, inputs: seq<nat>, last: nat, i: nat)
    requires IsBuffer(c, out) && out < |s.buffers| && Owner(c, out) < |c.net.nodes|
    requires forall k :: 0 <= k < |inputs| ==> inputs[k] < |s.buffers|
    requires i <= |inputs| && (last < |inputs| || inputs == [])
    requires forall k :: 0 <= k < |inputs| && Around(|inputs|, last, k) < i ==> !Eligible(c, s, out, inputs[k])
    ensures var b := Search(c, s, out, inputs, last, i);
      if b == NONE then forall k :: 0 <= k < |inputs| ==> !Eligible(c, s, out, inputs[k])
      else exists g :: 0 <= g < |inputs| && inputs[g] == b && Nearest(c, s, out, inputs, last, g)
    decreases |inputs| - i
  {
    if i < |inputs| {
      var g := Candidate(last, i, |inputs|);
      AroundIsCyclic(|inputs|, last, i);
      if Eligible(c, s, out, inputs[g]) {
        assert Nearest(c, s, out, inputs, last, g);
      } else {
        forall k | 0 <= k < |inputs| && Around(|inputs|, last, k) < i + 1
          ensures !Eligible(c, s, out, inputs[k])
        {
          if Around(|inputs|, last, k) == i {
            assert k == g;
          }
        }
        SearchFindsNearest(c, s, out, inputs, last, i + 1);
      }
    }
  }

  ghost predicate Nearest(c: Config, s: State, out: nat, inputs: seq<nat>, last: nat, g: nat)
    requires IsBuffer(c, out) && out < |s.buffers| && Owner(c, out) < |c.net.nodes|
    requires forall k :: 0 <= k < |inputs| ==> inputs[k] < |s.buffers|
    requires last < |inputs| && g < |inputs|
  {
    && Eligible(c, s, out, inputs[g])
    && forall k :: 0 <= k < |inputs| && Eligible(c, s, out, inputs[k]) ==>
         Around(|inputs|, last, g) <= Around(|inputs|, last, k)
  }

  /** The output buffer is ready, and the head of input buffer `b` of its node may go
      there. */
  ghost predicate Grantable(c: Config, s: State, out: nat, b: nat)
    requires Shape(c, s) && IsBuffer(c, out) && Owner(c, out) < |c.net.nodes|
  {
    && s.buffers[out].writeBusy < s.cycle
    && b in Inputs(c, Owner(c, out))
    && Eligible(c, s, out, b)
  }

  /** A decision is the search's, from the last buffer granted. */
  lemma DecisionIsNearest(c: Config, s: State, out: nat)
    requires Shape(c, s) && IsBuffer(c, out) && Owner(c, out) < |c.net.nodes|
    requires s.buffers[out].writeBusy < s.cycle
    ensures var inputs := Inputs(c, Owner(c, out));
      var last := IndexIn(inputs, s.buffers[out].schedBuffer);
      var b := Decide(c, s, out);
      if b == NONE then forall k :: 0 <= k < |inputs| ==> !Eligible(c, s, out, inputs[k])
      else exists g :: 0 <= g < |inputs| && inputs[g] == b && Nearest(c, s, out, inputs, last, g)
  {
    var inputs := Inputs(c, Owner(c, out));
    SearchFindsNearest(c, s, out, inputs, IndexIn(inputs, s.buffers[out].schedBuffer), 0);
  }

  /** The arbiter grants nobody only when nobody may be granted, and whoever it grants
      may be: it answers null exactly when no input buffer is eligible. */
  lemma DecisionIsExact(c: Config, s: State, out: nat, b: nat)
    requires Shape(c, s) && IsBuffer(c, out) && Owner(c, out) < |c.net.nodes|
    ensures Grantable(c, s, out, b) ==> Decide(c, s, out) != NONE
    ensures Decide(c, s, out) != NONE ==> Decide(c, s, out) >= 0 && Grantable(c, s, out, Decide(c, s, out))
  {
    var inputs := Inputs(c, Owner(c, out));
    if s.buffers[out].writeBusy < s.cycle {
      DecisionIsNearest(c, s, out);
      if b in inputs {
        assert inputs[IndexIn(inputs, b)] == b;
      }
    }
  }

  /** How many others may still be granted before input buffer `b`. */
  ghost function Turns(c: Config, s: State, out: nat, b: nat): nat
    requires Shape(c, s) && IsBuffer(c, out) && b in Inputs(c, Owner(c, out))
  {
    var inputs := Inputs(c, Owner(c, out));
    Around(|inputs|, IndexIn(inputs, s.buffers[out].schedBuffer), IndexIn(inputs, b))
  }

  lemma OnePosition(s: seq<nat>, i: nat)
    requires i < |s| && forall j, k :: 0 <= j < k < |s| ==> s[j] != s[k]
    ensures IndexIn(s, s[i]) == i
  {
  }

  lemma Nearer(n: nat, last: nat, g: nat, at: nat)
    requires last < n && g < n && at < n && g != at
    requires Around(n, last, g) <= Around(n, last, at)
    ensures Around(n, g, at) < Around(n, last, at)
  {
  }

  /** A decision that passes over a buffer that may be granted brings it nearer. */
  lemma PassedOver(c: Config, s: State, t: State, out: nat, b: nat)
    requires Shape(c, s) && Shape(c, t) && IsBuffer(c, out) && Owner(c, out) < |c.net.nodes|
    requires Grantable(c, s, out, b)
    requires t.buffers[out].schedBuffer == Decide(c, s, out)
    ensures t.buffers[out].schedBuffer == b || Turns(c, t, out, b) < Turns(c, s, out, b)
  {
    var inputs := Inputs(c, Owner(c, out));
    var last := IndexIn(inputs, s.buffers[out].schedBuffer);
    var at := IndexIn(inputs, b);
    DecisionIsNearest(c, s, out);
    assert Eligible(c, s, out, inputs[at]);
    var g :| 0 <= g < |inputs| && inputs[g] == Decide(c, s, out) && Nearest(c, s, out, inputs, last, g);
    if g != at {
      OnePosition(inputs, g);
      Nearer(|inputs|, last, g, at);
    }
  }

  // ---- Decisions in a run ----

  /** The scheduler's memory of output buffer `out` is as it was, or holds a new
      decision made in this cycle. */
  ghost predicate SchedStep(c: Config, s: State, t: State, out: nat) {
    && Shape(c, s) && Shape(c, t) && IsBuffer(c, out) && Owner(c, out) < |c.net.nodes|
    && if Decides(s, t, out) then
         && c.net.nodes[Owner(c, out)].kind == Switch && out < |c.net.links|
         && t.buffers[out].schedWhen == s.cycle && t.buffers[out].schedBuffer == Decide(c, s, out)
       else t.buffers[out].schedBuffer == s.buffers[out].schedBuffer
  }

  /** The step makes a decision for output buffer `out`. */
  ghost predicate Decides(s: State, t: State, out: nat) {
    out < |s.buffers| && out < |t.buffers| && t.buffers[out].schedWhen != s.buffers[out].schedWhen
  }

  lemma {:induction false} SearchIgnoresEvents(c: Config, s: State, t: State, out: nat, inputs: seq<nat>, last: nat, i: nat)
    requires IsBuffer(c, out) && out < |s.buffers| && Owner(c, out) < |c.net.nodes|
    requires forall k :: 0 <= k < |inputs| ==> inputs[k] < |s.buffers|
    requires i <= |inputs|
    requires t.buffers == s.buffers && t.flight == s.flight && t.cycle == s.cycle
    ensures Search(c, t, out, inputs, last, i) == Search(c, s, out, inputs, last, i)
    decreases |inputs| - i
  {
    if i < |inputs| {
      SearchIgnoresEvents(c, s, t, out, inputs, last, i + 1);
    }
  }

  lemma DecideIgnoresEvents(c: Config, s: State, at: nat, out: nat)
    requires Shape(c, s) && at < |s.events| && IsBuffer(c, out) && Owner(c, out) < |c.net.nodes|
    ensures Decide(c, Pop(s, at), out) == Decide(c, s, out)
  {
    var inputs := Inputs(c, Owner(c, out));
    SearchIgnoresEvents(c, s, Pop(s, at), out, inputs, IndexIn(inputs, s.buffers[out].schedBuffer), 0);
  }

  /** No decision was made. */
  ghost predicate SameSched(s: State, t: State) {
    |t.buffers| == |s.buffers| &&
    forall b: nat :: b < |s.buffers| ==>
      t.buffers[b].schedWhen == s.buffers[b].schedWhen && t.buffers[b].schedBuffer == s.buffers[b].schedBuffer
  }

  lemma WaitSched(s: State, b: nat, r: Resume)
    requires b < |s.buffers|
    ensures SameSched(s, Wait(s, b, r))
  {
  }

  lemma TransferSched(c: Config, s: State, id: nat, to: nat, until: int)
    requires MayDepart(c, s, id) && IsBuffer(c, to)
    ensures SameSched(s, Transfer(c, s, id, to, until))
  {
  }

  lemma ThroughSwitchSched(c: Config, s: State, id: nat, out: nat)
    requires MayDepart(c, s, id) && IsBuffer(c, out)
    requires s.flight[id].node < |c.net.nodes| && c.net.nodes[s.flight[id].node].bandwidth >= 1
    ensures SameSched(s, SendThroughSwitch(c, s, id, out))
  {
    TransferSched(c, s, id, out, Until(s.cycle, Latency(s.flight[id].size, c.net.nodes[s.flight[id].node].bandwidth)));
  }

  lemma OverLinkSched(c: Config, s: State, id: nat)
    requires MayDepart(c, s, id) && s.flight[id].buffer < |c.net.links|
    requires c.net.links[s.flight[id].buffer].bandwidth >= 1
    ensures SameSched(s, SendOverLink(c, s, id))
  {
    var l := s.flight[id].buffer;
    TransferSched(c, s, id, InputOf(c, l), Until(s.cycle, Latency(s.flight[id].size, c.net.links[l].bandwidth)));
  }

  lemma CrossStepDecides(c: Config, s: State, id: nat, to: nat, out: nat)
    requires MayCross(c, s, id, to) && IsBuffer(c, out) && Owner(c, out) < |c.net.nodes|
    ensures SchedStep(c, s, CrossStep(c, s, id), out)
  {
    if s.buffers[to].writeBusy < s.cycle && s.buffers[to].count + s.flight[id].size <= Capacity(c, to) {
      var t := NodeSchedule(c, s, to);
      StillDeparts(c, s, id, to);
      assert SchedStep(c, s, t, out);
      ThroughSwitchSched(c, t, id, to);
    }
  }

  lemma InputStepDecides(c: Config, s: State, id: nat, out: nat)
    requires Inv(c, s, {id}) && id in s.flight && s.flight[id].buffer >= |c.net.links|
    requires IsBuffer(c, out) && Owner(c, out) < |c.net.nodes|
    ensures Handles(c, s, id) && (s.flight[id].node != s.flight[id].dst ==> InTransit(c, s.flight[id]))
    ensures SchedStep(c, s, InputStep(c, s, id), out)
  {
    HandlesMsg(c, s, id);
    if IsHead(s, id) && s.flight[id].node != s.flight[id].dst && s.buffers[s.flight[id].buffer].readBusy < s.cycle {
      var to := CrossingAllowed(c, s, id);
      CrossStepDecides(c, s, id, to, out);
    } else {
      assert SameSched(s, InputStep(c, s, id));
    }
  }

  lemma HandlerDecides(c: Config, s: State, e: Event, out: nat)
    requires Inv(c, s, InHand(e.resume)) && EventOk(c, s, e) && e.time == s.cycle
    requires IsBuffer(c, out) && Owner(c, out) < |c.net.nodes|
    ensures SafeHandler(c, s, e.resume) && SchedStep(c, s, Handler(c, s, e.resume), out)
  {
    HandlerKeeps(c, s, e);
    match e.resume
    case OutputBuffer(id) =>
      HandlesMsg(c, s, id);
      OutputStepSched(c, s, id);
    case InputBuffer(id) => InputStepDecides(c, s, id, out);
    case Receive(id) => ReceiveStepSched(c, s, id);
    case Retry(_) =>
  }

  lemma ReceiveStepSched(c: Config, s: State, id: nat)
    requires Handles(c, s, id) && IsHead(s, id)
    ensures SameSched(s, ReceiveStep(c, s, id))
  {
  }

  lemma OutputStepSched(c: Config, s: State, id: nat)
    requires Handles(c, s, id) && s.flight[id].buffer < |c.net.links|
    requires IsHead(s, id) ==> MayDepart(c, s, id)
    ensures SameSched(s, OutputStep(c, s, id))
  {
    var l := s.flight[id].buffer;
    var input := InputOf(c, l);
    assert WellFormedLink(c.net, c.net.links[l]);
    if !IsHead(s, id) {
      WaitSched(s, l, OutputBuffer(id));
    } else if s.buffers[l].readBusy < s.cycle && s.links[l].busy < s.cycle && s.buffers[input].writeBusy < s.cycle {
      if s.buffers[input].count + s.flight[id].size > Capacity(c, input) {
        WaitSched(s, input, OutputBuffer(id));
      } else {
        OverLinkSched(c, s, id);
      }
    }
  }

  lemma ActionDecides(c: Config, s: State, a: Action, out: nat)
    requires Inv(c, s, {}) && Enabled(c, s, a) && IsBuffer(c, out) && Owner(c, out) < |c.net.nodes|
    ensures Safe(c, s, a) && SchedStep(c, s, Apply(c, s, a), out)
  {
    ActionServes(c, s, a);
    match a
    case Handle(at) =>
      PopKeeps(c, s, at);
      CoreEvent(c, s, Pop(s, at), s.events[at]);
      DecideIgnoresEvents(c, s, at, out);
      HandlerDecides(c, Pop(s, at), s.events[at], out);
    case Advance =>
    case Send(src, dst, size, notify, tag) =>
      SendSched(c, s, src, dst, size, notify, tag);
    case Take(id) =>
      AbsorbKeeps(c, s, id);
      AbsorbSched(s, id);
  }

  lemma SendSched(c: Config, s: State, src: nat, dst: nat, size: nat, notify: bool, tag: nat)
    requires ValidConfig(c) && Shape(c, s) && Deliverable(c, src, dst, size)
    ensures SameSched(s, TrySend(c, s, src, dst, size, notify, tag))
  {
    var o, k := FirstOutput(c, src, dst, size);
  }

  lemma AbsorbSched(s: State, id: nat)
    requires id in s.flight && s.flight[id].buffer < |s.buffers| && IsHead(s, id)
    ensures SameSched(s, Absorb(s, id))
  {
  }

  /** `ks` are the steps of the run that make decisions for `out`, leaving none out. */
  ghost predicate Decisions(states: seq<State>, ks: seq<nat>, out: nat) {
    && (forall i :: 0 <= i < |ks| ==> ks[i] + 1 < |states| && Decides(states[ks[i]], states[ks[i] + 1], out))
    && (forall i: nat :: i + 1 < |ks| ==> ks[i] < ks[i + 1] && Between(states, ks[i], ks[i + 1], out))
  }

  ghost predicate Between(states: seq<State>, j: nat, k: nat, out: nat) {
    forall x: nat :: j < x < k && x + 1 < |states| ==> !Decides(states[x], states[x + 1], out)
  }

  lemma RunDecides(c: Config, states: seq<State>, actions: seq<Action>, k: nat, out: nat)
    requires Run(c, states, actions) && k < |actions| && IsBuffer(c, out)
    ensures SchedStep(c, states[k], states[k + 1], out)
  {
    assert WellFormedLink(c.net, c.net.links[LinkOf(c, out)]);
    SafeAt(c, states, actions, k);
    ActionDecides(c, states[k], actions[k], out);
  }

  /** The memory is kept from one decision to the next. */
  lemma {:induction false} MemoryIsKept(c: Config, states: seq<State>, actions: seq<Action>, j: nat, k: nat, out: nat)
    requires Run(c, states, actions) && IsBuffer(c, out) && j < k <= |actions|
    requires Between(states, j, k, out)
    ensures Shape(c, states[j + 1]) && Shape(c, states[k])
    ensures states[k].buffers[out].schedBuffer == states[j + 1].buffers[out].schedBuffer
    decreases k
  {
    RunDecides(c, states, actions, k - 1, out);
    if k > j + 1 {
      MemoryIsKept(c, states, actions, j, k - 1, out);
    }
  }

  /** Input buffer `b` may be granted at each of the decisions. */
  ghost predicate AlwaysGrantable(c: Config, states: seq<State>, ks: seq<nat>, out: nat, b: nat) {
    && IsBuffer(c, out) && Owner(c, out) < |c.net.nodes|
    && forall i :: 0 <= i < |ks| ==>
         ks[i] < |states| && Shape(c, states[ks[i]]) && Grantable(c, states[ks[i]], out, b)
  }

  lemma DecisionAt(c: Config, states: seq<State>, actions: seq<Action>, ks: seq<nat>, out: nat, b: nat)
    requires Run(c, states, actions) && Decisions(states, ks, out) && AlwaysGrantable(c, states, ks, out, b)
    requires |ks| > 0
    ensures SchedStep(c, states[ks[0]], states[ks[0] + 1], out) && Decides(states[ks[0]], states[ks[0] + 1], out)
    ensures Grantable(c, states[ks[0]], out, b)
  {
    RunDecides(c, states, actions, ks[0], out);
  }

  /** The first of the decisions: granted now, or nearer at the next. */
  lemma FirstDecision(c: Config, states: seq<State>, actions: seq<Action>, ks: seq<nat>, out: nat, b: nat)
    requires Run(c, states, actions) && Decisions(states, ks, out) && AlwaysGrantable(c, states, ks, out, b)
    requires |ks| > 0
    ensures out < |states[ks[0] + 1].buffers|
    ensures states[ks[0] + 1].buffers[out].schedBuffer == b ||
            (|ks| > 1 ==> Turns(c, states[ks[1]], out, b) < Turns(c, states[ks[0]], out, b))
    ensures states[ks[0] + 1].buffers[out].schedBuffer == b || 0 < Turns(c, states[ks[0]], out, b)
  {
    DecisionAt(c, states, actions, ks, out, b);
    StepTurns(c, states[ks[0]], states[ks[0] + 1], out, b);
    if |ks| > 1 {
      NextDecision(c, states, actions, ks, out);
      SameTurns(c, states[ks[0] + 1], states[ks[1]], out, b);
    }
  }

  lemma StepTurns(c: Config, s: State, t: State, out: nat, b: nat)
    requires SchedStep(c, s, t, out) && Decides(s, t, out) && Grantable(c, s, out, b)
    ensures t.buffers[out].schedBuffer == b || Turns(c, t, out, b) < Turns(c, s, out, b)
  {
    PassedOver(c, s, t, out, b);
  }

  lemma SameTurns(c: Config, s: State, t: State, out: nat, b: nat)
    requires Shape(c, s) && Shape(c, t) && IsBuffer(c, out) && b in Inputs(c, Owner(c, out))
    requires t.buffers[out].schedBuffer == s.buffers[out].schedBuffer
    ensures Turns(c, t, out, b) == Turns(c, s, out, b)
  {
  }

  lemma NextDecision(c: Config, states: seq<State>, actions: seq<Action>, ks: seq<nat>, out: nat)
    requires Run(c, states, actions) && Decisions(states, ks, out) && IsBuffer(c, out) && |ks| > 1
    ensures Shape(c, states[ks[0] + 1]) && Shape(c, states[ks[1]])
    ensures states[ks[1]].buffers[out].schedBuffer == states[ks[0] + 1].buffers[out].schedBuffer
  {
    assert Between(states, ks[0], ks[0 + 1], out);
    MemoryIsKept(c, states, actions, ks[0], ks[1], out);
  }

  lemma {:induction false} GrantedInTurn(c: Config, states: seq<State>, actions: seq<Action>, ks: seq<nat>, out: nat, b: nat)
      returns (i: nat)
    requires Run(c, states, actions) && Decisions(states, ks, out) && AlwaysGrantable(c, states, ks, out, b)
    requires |ks| > 0 && |ks| > Turns(c, states[ks[0]], out, b)
    ensures i <= Turns(c, states[ks[0]], out, b) && i < |ks|
    ensures out < |states[ks[i] + 1].buffers| && states[ks[i] + 1].buffers[out].schedBuffer == b
    decreases |ks|
  {
    FirstDecision(c, states, actions, ks, out, b);
    i := 0;
    if states[ks[0] + 1].buffers[out].schedBuffer != b {
      LaterDecisions(states, ks, out);
      var later := GrantedInTurn(c, states, actions, ks[1..], out, b);
      i := later + 1;
      assert ks[1..][later] == ks[i];
    }
  }

  /** Bounded waiting: an input buffer that may be granted at every decision is granted
      within as many decisions as its node has input buffers. */
  lemma GrantedWithinRound(c: Config, states: seq<State>, actions: seq<Action>, ks: seq<nat>, out: nat, b: nat)
      returns (i: nat)
    requires Run(c, states, actions) && Decisions(states, ks, out) && AlwaysGrantable(c, states, ks, out, b)
    requires |ks| > 0 && |ks| >= |Inputs(c, Owner(c, out))|
    ensures i < |Inputs(c, Owner(c, out))| && i < |ks|
    ensures out < |states[ks[i] + 1].buffers| && states[ks[i] + 1].buffers[out].schedBuffer == b
  {
    i := GrantedInTurn(c, states, actions, ks, out, b);
  }

  lemma LaterDecisions(states: seq<State>, ks: seq<nat>, out: nat)
    requires Decisions(states, ks, out) && |ks| > 0
    ensures Decisions(states, ks[1..], out)
  {
    forall i: nat | i + 1 < |ks[1..]|
      ensures ks[1..][i] < ks[1..][i + 1] && Between(states, ks[1..][i], ks[1..][i + 1], out)
    {
      assert Between(states, ks[i + 1], ks[i + 1 + 1], out);
    }
  }
}
