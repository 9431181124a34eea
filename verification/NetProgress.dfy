/** Deadlock freedom: a routing table without cycles and the wakeup discipline together
    keep the simulation going. */
module NetProgress {
  import opened Topology
  import opened Sequences
  import opened Routes
  import opened Dependencies
  import opened NetState
  import opened NetInvariant
  import opened NetRuns

  /** Something will happen to a message: an event is scheduled for it, or it has been
      announced to its receiver, who can take it. */
  ghost predicate Lively(s: State) {
    s.awaiting != {} || exists i :: 0 <= i < |s.events| && !s.events[i].resume.Retry?
  }

  /** Where a message is that has no event: in a wakeup list. */
  lemma WithoutEvent(c: Config, s: State, id: nat) returns (b: nat, j: nat)
    requires Inv(c, s, {}) && id in s.flight && !Lively(s)
    ensures b < |s.buffers| && j < |s.buffers[b].wakeups|
    ensures s.buffers[b].wakeups[j].Who() == Message(id) && WakeupOk(c, s, b, s.buffers[b].wakeups[j])
  {
    assert ConservedMsg(s, {}, id);
    var ps := EventParties(s.events);
    forall i | 0 <= i < |ps|
      ensures ps[i] != Message(id)
    {
      assert s.events[i].resume.Retry?;
    }
    assert Message(id) !in multiset(ps);
    b, j := WaitingFind(s.buffers, Message(id));
  }

  /** When nothing will happen, the head of a buffer waits for room in the next one,
      which therefore holds a message. */
  lemma HeadWaits(c: Config, s: State, b: nat) returns (next: nat)
    requires Inv(c, s, {}) && !Lively(s)
    requires b < |s.buffers| && s.buffers[b].msgs != []
    ensures next < |s.buffers| && s.buffers[next].msgs != []
    ensures if b < |c.net.links| then next == InputOf(c, b) else
      && next < |c.net.links|
      && WellFormedLink(c.net, c.net.links[LinkOf(c, b)])
      && Depends(c.net, c.table, LinkOf(c, b), next)
  {
    assert PlacedBuffer(s, b);
    var id := s.buffers[b].msgs[0];
    var m := s.flight[id];
    var j;
    next, j := WithoutEvent(c, s, id);
    assert RoutedMsg(c, m) && Fits(c, m, next);
    assert next != b;
    assert CountedBuffer(c, s, next);
    if b >= |c.net.links| {
      var l := LinkOf(c, b);
      assert WellFormedLink(c.net, c.net.links[l]);
      assert Linked(c.net, c.net.links[l].src, c.table[c.net.links[l].src][m.dst]);
      assert Continues(c.net, c.table, l, next, m.dst);
    }
  }

  ghost predicate Occupied(c: Config, s: State, l: nat)
    requires Shape(c, s) && l < |c.net.links|
  {
    s.buffers[l].msgs != [] || s.buffers[InputOf(c, l)].msgs != []
  }

  lemma NextOccupied(c: Config, s: State, l: nat) returns (m: nat)
    requires Inv(c, s, {}) && !Lively(s)
    requires l < |c.net.links| && Occupied(c, s, l)
    ensures m < |c.net.links| && Occupied(c, s, m)
    ensures WellFormedLink(c.net, c.net.links[l]) && Depends(c.net, c.table, l, m)
  {
    if s.buffers[InputOf(c, l)].msgs == [] {
      var input := HeadWaits(c, s, l);
    }
    m := HeadWaits(c, s, InputOf(c, l));
  }

  /** Chains of full buffers of any length. */
  lemma {:induction false} OccupiedChain(c: Config, s: State, g: Graph, p: nat, n: nat) returns (chain: seq<nat>)
    requires Inv(c, s, {}) && !Lively(s) && g == SearchGraph(c.net, c.table) && IsGraph(g)
    requires p < |g.buffers| && Occupied(c, s, g.buffers[p])
    ensures |chain| == n + 1 && Below(chain, |g.buffers|) && Path(g, chain) && chain[0] == p
    decreases n
  {
    chain := [p];
    if n > 0 {
      var m := NextOccupied(c, s, g.buffers[p]);
      var q := VertexOf(c.net, c.table, m);
      assert Edge(g, p, q);
      var rest := OccupiedChain(c, s, g, q, n - 1);
      chain := [p] + rest;
      forall i | 0 <= i < |chain| - 1
        ensures Edge(g, chain[i], chain[i + 1])
      {
        if i > 0 {
          assert Edge(g, rest[i - 1], rest[i - 1 + 1]);
        }
      }
    }
  }

  lemma MessageOccupies(c: Config, s: State, id: nat) returns (l: nat)
    requires ValidConfig(c) && Placed(c, s) && id in s.flight
    ensures l < |c.net.links| && Occupied(c, s, l)
  {
    assert PlacedMsg(c, s, id);
    l := LinkOf(c, s.flight[id].buffer);
  }

  lemma OccupiedIsCyclic(c: Config, s: State, l: nat, g: Graph, p: nat)
    requires Inv(c, s, {}) && !Lively(s) && g == SearchGraph(c.net, c.table) && IsGraph(g)
    requires p < |g.buffers| && l == g.buffers[p] && Occupied(c, s, l)
    ensures Cyclic(g)
  {
    var chain := OccupiedChain(c, s, g, p, |g.buffers|);
    LongChain(g, chain);
  }

  /** A network that holds a message and in which nothing will happen has a cycle in
      its routing table. */
  lemma StalledIsCyclic(c: Config, s: State, id: nat)
    requires Inv(c, s, {}) && id in s.flight && !Lively(s)
    ensures IsGraph(SearchGraph(c.net, c.table)) && Cyclic(SearchGraph(c.net, c.table))
  {
    var l := MessageOccupies(c, s, id);
    var p := VertexOf(c.net, c.table, l);
    OccupiedIsCyclic(c, s, l, SearchGraph(c.net, c.table), p);
  }

  /** If cycle detection finds nothing in the table, then in every state of every run
      that has a message in flight something will happen to a message. */
  lemma NeverStalls(c: Config, states: seq<State>, actions: seq<Action>)
    requires Run(c, states, actions) && states[|actions|].flight != map[]
    requires IsGraph(SearchGraph(c.net, c.table)) && !Detected(SearchGraph(c.net, c.table))
    ensures Lively(states[|actions|])
  {
    var s := states[|actions|];
    RunsAreSafe(c, states, actions);
    DetectionIsExact(c.net, c.table);
    var id :| id in s.flight;
    if !Lively(s) {
      StalledIsCyclic(c, s, id);
    }
  }

  /** A refused sender is not forgotten either: its retry is scheduled, or it waits in a
      wakeup list while something will happen to a message. */
  lemma SendersAreWoken(c: Config, states: seq<State>, actions: seq<Action>, tag: nat)
    requires Run(c, states, actions) && Sender(tag) in Pending(states[|actions|])
    requires IsGraph(SearchGraph(c.net, c.table)) && !Detected(SearchGraph(c.net, c.table))
    ensures var s := states[|actions|];
      Lively(s) || exists i :: 0 <= i < |s.events| && s.events[i].resume == Retry(tag)
  {
    var s := states[|actions|];
    RunsAreSafe(c, states, actions);
    var ps := EventParties(s.events);
    if Sender(tag) in ps {
      var i :| 0 <= i < |ps| && ps[i] == Sender(tag);
      assert s.events[i].resume == Retry(tag);
    } else {
      var b, j := WaitingFind(s.buffers, Sender(tag));
      assert WakeupOk(c, s, b, s.buffers[b].wakeups[j]) && PlacedBuffer(s, b);
      assert s.buffers[b].msgs[0] in s.flight;
      NeverStalls(c, states, actions);
    }
  }

  /** No wakeup is lost: every message in flight either awaits its receiver or has
      exactly one continuation. An event lies later than its message's busy cycle. A
      wakeup entry is on the message's own buffer while it is not the head, or on the
      buffer it goes to while it is the head and does not fit there. */
  lemma NoLostWakeup(c: Config, states: seq<State>, actions: seq<Action>, id: nat)
    requires Run(c, states, actions)
    ensures var s := states[|actions|];
      && Pending(s)[Message(id)] == (if id in s.flight && id !in s.awaiting then 1 else 0)
      && Placed(c, s)
      && (forall i :: 0 <= i < |s.events| && s.events[i].resume.Who() == Message(id) ==> EventOk(c, s, s.events[i]))
      && (forall b: nat, j: nat ::
            b < |s.buffers| && j < |s.buffers[b].wakeups| && s.buffers[b].wakeups[j].Who() == Message(id) ==>
              WakeupOk(c, s, b, s.buffers[b].wakeups[j]))
  {
    RunsAreSafe(c, states, actions);
    assert ConservedMsg(states[|actions|], {}, id);
  }
}
