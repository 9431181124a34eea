/** What every reachable state of the network satisfies, predicate by predicate. */
module NetInvariant {
  import opened Topology
  import opened Sequences
  import opened Routes
  import opened NetState

  // ---- Sizes ----

  function SizeOf(f: map<nat, Msg>, id: nat): nat {
    if id in f then f[id].size else 0
  }

  /** The sum of the sizes of the listed messages. */
  function Total(f: map<nat, Msg>, ids: seq<nat>): nat {
    if ids == [] then 0 else SizeOf(f, ids[0]) + Total(f, ids[1..])
  }

  lemma {:induction false} TotalAppend(f: map<nat, Msg>, ids: seq<nat>, id: nat)
    ensures Total(f, ids + [id]) == Total(f, ids) + SizeOf(f, id)
  {
    if ids == [] {
      assert ids + [id] == [id];
      assert [id][1..] == [];
    } else {
      TotalAppend(f, ids[1..], id);
      assert (ids + [id])[1..] == ids[1..] + [id];
    }
  }

  lemma {:induction false} TotalFrame(f: map<nat, Msg>, g: map<nat, Msg>, ids: seq<nat>)
    requires forall i :: 0 <= i < |ids| ==> SizeOf(f, ids[i]) == SizeOf(g, ids[i])
    ensures Total(f, ids) == Total(g, ids)
  {
    if ids != [] {
      assert forall i :: 0 <= i < |ids[1..]| ==> ids[1..][i] == ids[i + 1];
      TotalFrame(f, g, ids[1..]);
    }
  }

  // ---- Conservation of continuations ----

  function Parties(rs: seq<Resume>): seq<Party> {
    seq(|rs|, i requires 0 <= i < |rs| => rs[i].Who())
  }

  function EventParties(es: seq<Event>): seq<Party> {
    seq(|es|, i requires 0 <= i < |es| => es[i].resume.Who())
  }

  /** Whose entries are in the wakeup lists. */
  function Waiting(bs: seq<Buffer>): multiset<Party> {
    if bs == [] then multiset{}
    else Waiting(bs[..|bs| - 1]) + multiset(Parties(bs[|bs| - 1].wakeups))
  }

  /** Every continuation in the state, with multiplicity: scheduled or waiting. */
  function Pending(s: State): multiset<Party> {
    multiset(EventParties(s.events)) + Waiting(s.buffers)
  }

  lemma WaitingLast(bs: seq<Buffer>)
    requires bs != []
    ensures Waiting(bs) == Waiting(bs[..|bs| - 1]) + multiset(Parties(bs[|bs| - 1].wakeups))
  {
  }

  lemma {:induction false} WaitingUpdate(bs: seq<Buffer>, i: nat, b: Buffer)
    requires i < |bs|
    ensures Waiting(bs[i := b]) + multiset(Parties(bs[i].wakeups)) == Waiting(bs) + multiset(Parties(b.wakeups))
  {
    var n := |bs| - 1;
    var bs' := bs[i := b];
    WaitingLast(bs');
    WaitingLast(bs);
    if i == n {
      assert bs'[..n] == bs[..n];
    } else {
      WaitingUpdate(bs[..n], i, b);
      assert bs'[..n] == bs[..n][i := b] && bs[..n][i] == bs[i];
      AddBoth(Waiting(bs'[..n]), multiset(Parties(bs[i].wakeups)), Waiting(bs[..n]), multiset(Parties(b.wakeups)),
              multiset(Parties(bs[n].wakeups)));
    }
  }

  lemma AddBoth(a: multiset<Party>, x: multiset<Party>, b: multiset<Party>, y: multiset<Party>, z: multiset<Party>)
    requires a + x == b + y
    ensures (a + z) + x == (b + z) + y
  {
    assert (a + z) + x == (a + x) + z;
  }

  lemma Cancel(a: multiset<Party>, b: multiset<Party>, x: multiset<Party>, d: multiset<Party>)
    requires a + x == b + (x + d)
    ensures a == b + d
  {
    assert forall p :: (a + x)[p] == a[p] + x[p] && (b + (x + d))[p] == b[p] + x[p] + d[p];
  }

  lemma {:induction false} WaitingHolds(bs: seq<Buffer>, i: nat)
    requires i < |bs|
    ensures multiset(Parties(bs[i].wakeups)) <= Waiting(bs)
  {
    if i < |bs| - 1 {
      WaitingHolds(bs[..|bs| - 1], i);
    }
  }

  lemma {:induction false} WaitingFind(bs: seq<Buffer>, p: Party) returns (i: nat, j: nat)
    requires p in Waiting(bs)
    ensures i < |bs| && j < |bs[i].wakeups| && bs[i].wakeups[j].Who() == p
  {
    var n := |bs| - 1;
    if p in Waiting(bs[..n]) {
      i, j := WaitingFind(bs[..n], p);
    } else {
      i := n;
      assert p in Parties(bs[n].wakeups);
      j :| 0 <= j < |Parties(bs[n].wakeups)| && Parties(bs[n].wakeups)[j] == p;
    }
  }

  /** An entry anywhere is pending. */
  lemma EntryIsPending(s: State, b: nat, j: nat)
    requires b < |s.buffers| && j < |s.buffers[b].wakeups|
    ensures s.buffers[b].wakeups[j].Who() in Pending(s)
  {
    var ps := Parties(s.buffers[b].wakeups);
    assert ps[j] in multiset(ps);
    WaitingHolds(s.buffers, b);
  }

  lemma EventIsPending(s: State, i: nat)
    requires i < |s.events|
    ensures s.events[i].resume.Who() in Pending(s)
  {
    assert EventParties(s.events)[i] in multiset(EventParties(s.events));
  }

  // ---- The invariant, part by part ----

  /** Every message in flight is in exactly the buffer it names, once. */
  ghost predicate Placed(c: Config, s: State)
  {
    && Shape(c, s)
    && (forall id :: id in s.flight ==> PlacedMsg(c, s, id))
    && (forall b: nat :: b < |s.buffers| ==> PlacedBuffer(s, b))
  }

  ghost predicate PlacedMsg(c: Config, s: State, id: nat)
    requires Shape(c, s) && id in s.flight
  {
    var m := s.flight[id];
    && IsBuffer(c, m.buffer)
    && m.node == Owner(c, m.buffer)
    && id in s.buffers[m.buffer].msgs
    && id <= s.lastId
    && m.size >= 1
  }

  ghost predicate PlacedBuffer(s: State, b: nat)
    requires b < |s.buffers|
  {
    var msgs := s.buffers[b].msgs;
    && Distinct(msgs)
    && (forall i :: 0 <= i < |msgs| ==> msgs[i] in s.flight && s.flight[msgs[i]].buffer == b)
  }

  /** A buffer's count is the sum of its messages' sizes, within its capacity. */
  ghost predicate Counted(c: Config, s: State)
    requires ValidConfig(c) && Shape(c, s)
  {
    forall b: nat :: b < |s.buffers| ==> CountedBuffer(c, s, b)
  }

  ghost predicate CountedBuffer(c: Config, s: State, b: nat)
    requires ValidConfig(c) && Shape(c, s) && b < |s.buffers|
  {
    && Owner(c, b) < |c.net.nodes|
    && s.buffers[b].count == Total(s.flight, s.buffers[b].msgs) <= Capacity(c, b)
  }

  /** A message is where its route leads: the links it has crossed and those it still
      has to cross make up its route. */
  ghost predicate Routed(c: Config, s: State)
    requires ValidConfig(c)
  {
    forall id :: id in s.flight ==> RoutedMsg(c, s.flight[id])
  }

  ghost predicate RoutedMsg(c: Config, m: Msg)
    requires ValidConfig(c)
  {
    && IsBuffer(c, m.buffer)
    && m.node == Owner(c, m.buffer)
    && m.src < |c.net.nodes|
    && m.dst < |c.net.nodes|
    && c.net.nodes[m.dst].kind == EndNode
    && (exists k :: Remaining(c, m, k))
    && Entered(c, m)
    && (forall b: nat :: IsBuffer(c, b) ==> Fits(c, m, b))
  }

  ghost predicate Fits(c: Config, m: Msg, b: nat)
    requires IsBuffer(c, b)
  {
    Owner(c, b) < |c.net.nodes| && m.size <= Capacity(c, b)
  }

  ghost predicate Remaining(c: Config, m: Msg, k: nat)
    requires ValidConfig(c)
  {
    && Hops(c.net, c.table, m.node, m.dst, k)
    && Hops(c.net, c.table, m.src, m.dst, m.hops + k)
  }

  /** The buffer belongs to the link that the table gives at the link's source. */
  ghost predicate Entered(c: Config, m: Msg)
    requires ValidConfig(c) && IsBuffer(c, m.buffer)
  {
    var l := LinkOf(c, m.buffer);
    var u := c.net.links[l].src;
    && u < |c.table| && m.dst < |c.table|
    && u != m.dst
    && c.table[u][m.dst].out == l
  }

  /** How many continuations the state holds for a message. */
  function Continuations(s: State, id: nat): nat {
    Pending(s)[Message(id)]
  }

  /** A message in flight has exactly one continuation, unless it is awaiting its
      receiver or is the one being handled; any other has none. */
  ghost predicate ConservedMsg(s: State, handled: set<nat>, id: nat) {
    Continuations(s, id) == if id in s.flight && id !in s.awaiting && id !in handled then 1 else 0
  }

  ghost predicate Conserved(s: State, handled: set<nat>)
  {
    forall id: nat :: ConservedMsg(s, handled, id)
  }

  ghost predicate EventsOk(c: Config, s: State)
    requires ValidConfig(c) && Placed(c, s)
  {
    forall i :: 0 <= i < |s.events| ==> EventOk(c, s, s.events[i])
  }

  /** A scheduled event lies ahead, later than its message's busy cycle. */
  ghost predicate EventOk(c: Config, s: State, e: Event)
    requires ValidConfig(c) && Placed(c, s)
  {
    && s.cycle <= e.time
    && match e.resume
       case OutputBuffer(id) =>
         id in s.flight && s.flight[id].buffer < |c.net.links| && s.flight[id].busy < e.time
       case InputBuffer(id) =>
         id in s.flight && s.flight[id].buffer >= |c.net.links| && s.flight[id].busy < e.time
       case Receive(id) =>
         id in s.flight && Arrived(c, s, id)
       case Retry(_) => true
  }

  /** The message is first in an input buffer of its destination. */
  ghost predicate Arrived(c: Config, s: State, id: nat)
    requires Placed(c, s) && id in s.flight
  {
    assert PlacedMsg(c, s, id);
    && s.flight[id].buffer >= |c.net.links|
    && s.flight[id].node == s.flight[id].dst
    && IsHead(s, id)
  }

  ghost predicate WakeupsOk(c: Config, s: State)
    requires ValidConfig(c) && Placed(c, s)
  {
    forall b: nat, j: nat :: b < |s.buffers| && j < |s.buffers[b].wakeups| ==>
      WakeupOk(c, s, b, s.buffers[b].wakeups[j])
  }

  /** A message waits on its own buffer only while it is not the head, and on the
      buffer it goes to only while it is the head and does not fit there. */
  ghost predicate WakeupOk(c: Config, s: State, b: nat, r: Resume)
    requires ValidConfig(c) && Placed(c, s) && b < |s.buffers|
  {
    match r
    case OutputBuffer(id) =>
      && id in s.flight && s.flight[id].buffer < |c.net.links|
      && s.flight[id].busy < s.cycle
      && (b != s.flight[id].buffer ==> b == InputOf(c, s.flight[id].buffer))
      && WaitReason(c, s, b, id)
    case InputBuffer(id) =>
      && id in s.flight && s.flight[id].buffer >= |c.net.links|
      && s.flight[id].busy < s.cycle
      && (b != s.flight[id].buffer ==> IsNextOutput(c, s.flight[id], b))
      && WaitReason(c, s, b, id)
    case Receive(_) => false
    case Retry(_) => s.buffers[b].msgs != []
  }

  /** Buffer `b` is where the table sends the message next. */
  ghost predicate IsNextOutput(c: Config, m: Msg, b: nat) {
    && b < |c.net.links|
    && m.node < |c.table| && m.dst < |c.table[m.node]|
    && m.node != m.dst
    && c.table[m.node][m.dst].out == b
  }

  ghost predicate WaitReason(c: Config, s: State, b: nat, id: nat)
    requires ValidConfig(c) && Placed(c, s) && b < |s.buffers| && id in s.flight
  {
    assert PlacedMsg(c, s, id);
    if b == s.flight[id].buffer then !IsHead(s, id)
    else IsHead(s, id) && Owner(c, b) < |c.net.nodes| && s.buffers[b].count + s.flight[id].size > Capacity(c, b)
  }

  ghost predicate AwaitingOk(c: Config, s: State)
    requires Placed(c, s)
  {
    forall id :: id in s.awaiting ==> id in s.flight && Arrived(c, s, id)
  }

  ghost predicate Inv(c: Config, s: State, handled: set<nat>)
  {
    && ValidConfig(c)
    && Placed(c, s)
    && Counted(c, s)
    && Routed(c, s)
    && Conserved(s, handled)
    && EventsOk(c, s)
    && WakeupsOk(c, s)
    && AwaitingOk(c, s)
    && handled <= s.flight.Keys
    && handled !! s.awaiting
  }
}
