/** The network simulator as a state machine on values: what every call and every
    event handler of buffer.c, node.c, network.c and message.c does to the state. */
module NetState {
  import opened Sequences
  import opened Topology
  import opened Routes

  /** What a scheduled event or a wakeup entry resumes: a message in one of its three
      stages, or the retry event of a sender that was refused. */
  datatype Resume =
    | OutputBuffer(id: nat)
    | InputBuffer(id: nat)
    | Receive(id: nat)
    | Retry(tag: nat)
  {
    /** Whose continuation it is. */
    function Who(): Party {
      if Retry? then Sender(tag) else Message(id)
    }
  }

  datatype Party = Message(id: nat) | Sender(tag: nat)

  datatype Event = Event(time: int, resume: Resume)

  /** A message in flight. `hops` counts the links it has crossed; `notify` tells
      whether the sender asked for an event when the message arrives. */
  datatype Msg = Msg(size: nat, src: nat, dst: nat, node: nat, buffer: nat, busy: int, notify: bool, hops: nat)

  datatype Buffer = Buffer(
    count: int,
    readBusy: int,
    writeBusy: int,
    msgs: seq<nat>,
    wakeups: seq<Resume>,
    schedWhen: int,
    schedBuffer: int,
    occupancyValue: int,
    occupancyCycle: int,
    occupancyAcc: int)

  datatype LinkState = LinkState(busy: int, busyCycles: int, transferredBytes: int)

  /** `flight` is the table of in-flight messages. `awaiting` holds the messages whose
      receive event has been handed to the receiver, and `delivered` the messages
      absorbed so far, oldest first, with their identifiers. `held` is what a clock
      sees: for every buffer, the sum of its count over the elapsed cycles. */
  datatype State = State(
    cycle: int,
    buffers: seq<Buffer>,
    links: seq<LinkState>,
    events: seq<Event>,
    flight: map<nat, Msg>,
    lastId: nat,
    awaiting: set<nat>,
    delivered: seq<(nat, Msg)>,
    held: seq<int>)

  datatype Config = Config(net: Net, table: Table)

  // ---- Buffers: the output buffer of link `l` is `l`, its input buffer follows all
  // ---- output buffers

  function InputOf(c: Config, l: nat): nat {
    |c.net.links| + l
  }

  predicate IsBuffer(c: Config, b: int) {
    0 <= b < 2 * |c.net.links|
  }

  /** The link a buffer is attached to. */
  function LinkOf(c: Config, b: nat): (l: nat)
    requires IsBuffer(c, b)
    ensures l < |c.net.links|
  {
    if b < |c.net.links| then b else b - |c.net.links|
  }

  function Owner(c: Config, b: nat): nat
    requires IsBuffer(c, b)
  {
    var link := c.net.links[LinkOf(c, b)];
    if b < |c.net.links| then link.src else link.dst
  }

  function Capacity(c: Config, b: nat): nat
    requires IsBuffer(c, b) && Owner(c, b) < |c.net.nodes|
  {
    var node := c.net.nodes[Owner(c, b)];
    if b < |c.net.links| then node.outputSize else node.inputSize
  }

  /** What the constructors have checked, and what the rest of the code takes for
      granted: the table follows links, no node has a link to itself, and only
      switches forward messages. */
  ghost predicate ValidConfig(c: Config) {
    && WellFormed(c.net)
    && NoSelfLinks(c.net)
    && LinkedTable(c.net, c.table)
    && (forall u: nat, v: nat :: u < |c.table| && v < |c.table| ==> Forwards(c, u, v))
  }

  ghost predicate Forwards(c: Config, u: nat, v: nat)
    requires LinkedTable(c.net, c.table) && u < |c.table| && v < |c.table|
  {
    var e := c.table[u][v];
    e.out != NONE && 0 <= e.next < |c.net.nodes| && e.next != v ==>
      c.net.nodes[e.next].kind == Switch
  }

  predicate Shape(c: Config, s: State) {
    && |s.buffers| == 2 * |c.net.links|
    && |s.links| == |c.net.links|
    && |s.held| == |s.buffers|
  }

  // ---- buffer.c ----

  function UpdateOccupancy(b: Buffer, cycle: int): Buffer {
    b.(occupancyAcc := b.occupancyAcc + b.occupancyValue * (cycle - b.occupancyCycle),
       occupancyValue := b.count,
       occupancyCycle := cycle)
  }

  function Insert(b: Buffer, id: nat, size: nat, cycle: int): Buffer {
    UpdateOccupancy(b.(count := b.count + size, msgs := b.msgs + [id]), cycle)
  }

  /** Extraction takes the head; the wakeup entries leave the buffer with it. */
  function Extract(b: Buffer, size: nat, cycle: int): Buffer
    requires b.msgs != []
  {
    UpdateOccupancy(b.(count := b.count - size, msgs := b.msgs[1..]), cycle).(wakeups := [])
  }

  /** The events that waking a list of entries schedules for the current cycle. */
  function Woken(ws: seq<Resume>, cycle: int): seq<Event> {
    seq(|ws|, i requires 0 <= i < |ws| => Event(cycle, ws[i]))
  }

  // ---- esim.c ----

  function Schedule(s: State, r: Resume, after: int): State {
    s.(events := s.events + [Event(s.cycle + after, r)])
  }

  function Wait(s: State, b: nat, r: Resume): State
    requires b < |s.buffers|
  {
    s.(buffers := s.buffers[b := s.buffers[b].(wakeups := s.buffers[b].wakeups + [r])])
  }

  /** Take the event at position `i` out of the heap. */
  function Pop(s: State, i: nat): State
    requires i < |s.events|
  {
    s.(events := s.events[..i] + s.events[i + 1..])
  }

  /** The clock moves on when no event is left for the current cycle. */
  function Tick(c: Config, s: State): State
    requires Shape(c, s)
  {
    s.(cycle := s.cycle + 1,
       held := seq(|s.held|, b requires 0 <= b < |s.held| && Shape(c, s) => s.held[b] + s.buffers[b].count))
  }

  // ---- message.c: movement of a message ----

  predicate IsHead(s: State, id: nat)
    requires id in s.flight && s.flight[id].buffer < |s.buffers|
  {
    var msgs := s.buffers[s.flight[id].buffer].msgs;
    msgs != [] && msgs[0] == id
  }

  function Latency(size: nat, bandwidth: nat): int
    requires bandwidth >= 1
  {
    (size - 1) / bandwidth + 1
  }

  /** Extract the head of a buffer and wake whoever waited on it. */
  function Depart(s: State, id: nat): State
    requires id in s.flight && s.flight[id].buffer < |s.buffers| && IsHead(s, id)
  {
    var b := s.flight[id].buffer;
    s.(buffers := s.buffers[b := Extract(s.buffers[b], s.flight[id].size, s.cycle)],
       events := s.events + Woken(s.buffers[b].wakeups, s.cycle),
       flight := s.flight - {id},
       awaiting := s.awaiting - {id})
  }

  /** Extract the head of a buffer, which stays busy for reading until `until`. */
  function Vacate(s: State, id: nat, until: int): State
    requires id in s.flight && s.flight[id].buffer < |s.buffers| && IsHead(s, id)
  {
    var b := s.flight[id].buffer;
    var t := Depart(s, id);
    t.(buffers := t.buffers[b := t.buffers[b].(readBusy := until)])
  }

  /** Insert a message in its buffer, which stays busy as long as the message. */
  function Arrive(s: State, id: nat, m: Msg): State
    requires m.buffer < |s.buffers|
  {
    s.(buffers := s.buffers[m.buffer := Insert(s.buffers[m.buffer], id, m.size, s.cycle).(writeBusy := m.busy)],
       flight := s.flight[id := m])
  }

  /** The message in its next buffer, on its way there until `until`. */
  function Moved(c: Config, m: Msg, to: nat, until: int): Msg
    requires IsBuffer(c, to)
  {
    m.(buffer := to,
       node := Owner(c, to),
       busy := until,
       hops := if to < |c.net.links| then m.hops else m.hops + 1)
  }

  /** Move the head of one buffer to the tail of another. */
  function Transfer(c: Config, s: State, id: nat, to: nat, until: int): State
    requires id in s.flight && s.flight[id].buffer < |s.buffers| && IsHead(s, id)
    requires IsBuffer(c, to) && to < |s.buffers|
  {
    Arrive(Vacate(s, id, until), id, Moved(c, s.flight[id], to, until))
  }

  /** The last cycle of an operation that starts in `cycle` and takes `lat` cycles. */
  function Until(cycle: int, lat: int): int {
    cycle + lat - 1
  }

  /** How long to wait for a resource that is busy until `busy`. */
  function Delay(cycle: int, busy: int): int {
    busy - cycle + 1
  }

  /** Occupy a link for one transfer and account for it. */
  function Transmit(s: State, l: nat, size: nat, lat: int): State
    requires l < |s.links|
  {
    var k := s.links[l];
    s.(links := s.links[l := LinkState(Until(s.cycle, lat), k.busyCycles + lat, k.transferredBytes + size)])
  }

  /** Remove a message at the head of its buffer from the network. */
  function Absorb(s: State, id: nat): State
    requires id in s.flight && s.flight[id].buffer < |s.buffers| && IsHead(s, id)
  {
    Depart(s, id).(delivered := s.delivered + [(id, s.flight[id])])
  }

  // ---- node.c: the crossbar scheduler ----

  /** The input buffers of node `u` among the first `k` links, oldest first. */
  function InputsUpTo(c: Config, u: nat, k: nat): (s: seq<nat>)
    requires k <= |c.net.links|
    ensures forall i :: 0 <= i < |s| ==> |c.net.links| <= s[i] < |c.net.links| + k && c.net.links[s[i] - |c.net.links|].dst == u
    ensures forall b :: |c.net.links| <= b < |c.net.links| + k && c.net.links[b - |c.net.links|].dst == u ==> b in s
    ensures forall i, j :: 0 <= i < j < |s| ==> s[i] != s[j]
  {
    if k == 0 then []
    else if c.net.links[k - 1].dst == u then InputsUpTo(c, u, k - 1) + [InputOf(c, k - 1)]
    else InputsUpTo(c, u, k - 1)
  }

  /** The node's list of input buffers. */
  function Inputs(c: Config, u: nat): (s: seq<nat>)
    ensures forall i :: 0 <= i < |s| ==> IsBuffer(c, s[i]) && |c.net.links| <= s[i] && Owner(c, s[i]) == u
    ensures forall b :: |c.net.links| <= b < 2 * |c.net.links| && Owner(c, b) == u ==> b in s
    ensures forall i, j :: 0 <= i < j < |s| ==> s[i] != s[j]
  {
    InputsUpTo(c, u, |c.net.links|)
  }

  /** Position of buffer `b` in the list, 0 when there is none. */
  function IndexIn(s: seq<nat>, b: int): (i: nat)
    ensures 0 < |s| ==> i < |s|
    ensures b in s ==> s[i] == b
  {
    if s == [] then 0
    else if s[|s| - 1] == b then |s| - 1
    else IndexIn(s[..|s| - 1], b)
  }

  /** The conditions under which the scheduler may pick input buffer `b`. */
  predicate Eligible(c: Config, s: State, out: nat, b: nat)
    requires IsBuffer(c, out) && b < |s.buffers| && out < |s.buffers|
    requires Owner(c, out) < |c.net.nodes|
  {
    var buffer := s.buffers[b];
    && buffer.msgs != []
    && buffer.msgs[0] in s.flight
    && var m := s.flight[buffer.msgs[0]];
    && m.busy < s.cycle
    && buffer.readBusy < s.cycle
    && Owner(c, out) < |c.table|
    && m.dst < |c.table[Owner(c, out)]|
    && c.table[Owner(c, out)][m.dst].out == out
    && s.buffers[out].count + m.size <= Capacity(c, out)
  }

  /** The `i`-th position after `last` in a list of `n`, going round. */
  function Candidate(last: nat, i: nat, n: nat): (k: nat)
    requires n > 0
    ensures k < n
  {
    (last + i + 1) % n
  }

  /** The first eligible buffer at cyclic distance `i + 1` or more from `last`. */
  function Search(c: Config, s: State, out: nat, inputs: seq<nat>, last: nat, i: nat): int
    requires IsBuffer(c, out) && out < |s.buffers| && Owner(c, out) < |c.net.nodes|
    requires forall k :: 0 <= k < |inputs| ==> inputs[k] < |s.buffers|
    requires i <= |inputs|
    decreases |inputs| - i
  {
    if i == |inputs| then NONE
    else
      var b := inputs[Candidate(last, i, |inputs|)];
      if Eligible(c, s, out, b) then b else Search(c, s, out, inputs, last, i + 1)
  }

  /** A new decision for output buffer `out`. */
  function Decide(c: Config, s: State, out: nat): int
    requires Shape(c, s) && IsBuffer(c, out) && Owner(c, out) < |c.net.nodes|
  {
    var inputs := Inputs(c, Owner(c, out));
    if s.buffers[out].writeBusy >= s.cycle then NONE
    else Search(c, s, out, inputs, IndexIn(inputs, s.buffers[out].schedBuffer), 0)
  }

  /** The scheduler decides once per cycle and remembers its decision. */
  function NodeSchedule(c: Config, s: State, out: nat): State
    requires Shape(c, s) && IsBuffer(c, out) && Owner(c, out) < |c.net.nodes|
  {
    if s.buffers[out].schedWhen == s.cycle then s
    else s.(buffers := s.buffers[out := s.buffers[out].(schedWhen := s.cycle, schedBuffer := Decide(c, s, out))])
  }

  // ---- message.c: the event handler ----

  /** What the handlers rely on for the message they are called with. */
  ghost predicate Handles(c: Config, s: State, id: nat) {
    && ValidConfig(c)
    && Shape(c, s)
    && id in s.flight
    && var m := s.flight[id];
    && IsBuffer(c, m.buffer)
    && m.node == Owner(c, m.buffer) < |c.net.nodes|
    && m.dst < |c.net.nodes|
  }

  /** Everything is free: cross the link to its input buffer. */
  function SendOverLink(c: Config, s: State, id: nat): State
    requires Shape(c, s) && id in s.flight && s.flight[id].buffer < |c.net.links| && IsHead(s, id)
    requires c.net.links[s.flight[id].buffer].bandwidth >= 1
  {
    var l := s.flight[id].buffer;
    var size := s.flight[id].size;
    var lat := Latency(size, c.net.links[l].bandwidth);
    Schedule(Transmit(Transfer(c, s, id, InputOf(c, l), Until(s.cycle, lat)), l, size, lat), InputBuffer(id), lat)
  }

  ghost function OutputStep(c: Config, s: State, id: nat): State
    requires Handles(c, s, id) && s.flight[id].buffer < |c.net.links|
  {
    var m := s.flight[id];
    var l := m.buffer;
    var input := InputOf(c, l);
    assert WellFormedLink(c.net, c.net.links[l]);
    if !IsHead(s, id) then Wait(s, l, OutputBuffer(id))
    else if s.buffers[l].readBusy >= s.cycle then
      Schedule(s, OutputBuffer(id), Delay(s.cycle, s.buffers[l].readBusy))
    else if s.links[l].busy >= s.cycle then
      Schedule(s, OutputBuffer(id), Delay(s.cycle, s.links[l].busy))
    else if s.buffers[input].writeBusy >= s.cycle then
      Schedule(s, OutputBuffer(id), Delay(s.cycle, s.buffers[input].writeBusy))
    else if s.buffers[input].count + m.size > Capacity(c, input) then Wait(s, input, OutputBuffer(id))
    else SendOverLink(c, s, id)
  }

  /** It is the message's turn: cross the switch to the output buffer. */
  function SendThroughSwitch(c: Config, s: State, id: nat, out: nat): State
    requires Shape(c, s) && id in s.flight && s.flight[id].buffer < |s.buffers| && IsHead(s, id)
    requires IsBuffer(c, out)
    requires s.flight[id].node < |c.net.nodes| && c.net.nodes[s.flight[id].node].bandwidth >= 1
  {
    var lat := Latency(s.flight[id].size, c.net.nodes[s.flight[id].node].bandwidth);
    Schedule(Transfer(c, s, id, out, Until(s.cycle, lat)), OutputBuffer(id), lat)
  }

  /** The message is elsewhere than at its destination, in a node with a route. */
  ghost predicate InTransit(c: Config, m: Msg)
    requires ValidConfig(c) && m.node < |c.net.nodes| && m.dst < |c.net.nodes|
  {
    && m.node != m.dst
    && c.table[m.node][m.dst].out != NONE
    && c.net.nodes[m.node].kind == Switch
  }

  /** The second half of the input-buffer handler: the output buffer must be free and
      have room, and the scheduler must pick this input buffer. */
  ghost function CrossStep(c: Config, s: State, id: nat): State
    requires Handles(c, s, id) && InTransit(c, s.flight[id]) && IsHead(s, id)
  {
    var m := s.flight[id];
    assert Linked(c.net, m.node, c.table[m.node][m.dst]);
    var out := c.table[m.node][m.dst].out;
    if s.buffers[out].writeBusy >= s.cycle then
      Schedule(s, InputBuffer(id), Delay(s.cycle, s.buffers[out].writeBusy))
    else if s.buffers[out].count + m.size > Capacity(c, out) then Wait(s, out, InputBuffer(id))
    else
      var t := NodeSchedule(c, s, out);
      if t.buffers[out].schedBuffer != m.buffer then Schedule(t, InputBuffer(id), 1)
      else SendThroughSwitch(c, t, id, out)
  }

  ghost function InputStep(c: Config, s: State, id: nat): State
    requires Handles(c, s, id) && s.flight[id].buffer >= |c.net.links|
    requires s.flight[id].node != s.flight[id].dst ==> InTransit(c, s.flight[id])
  {
    var m := s.flight[id];
    if !IsHead(s, id) then Wait(s, m.buffer, InputBuffer(id))
    else if m.node == m.dst then Schedule(s, Receive(id), 0)
    else if s.buffers[m.buffer].readBusy >= s.cycle then
      Schedule(s, InputBuffer(id), Delay(s.cycle, s.buffers[m.buffer].readBusy))
    else CrossStep(c, s, id)
  }

  ghost function ReceiveStep(c: Config, s: State, id: nat): State
    requires Handles(c, s, id) && IsHead(s, id)
  {
    var t := s.(awaiting := s.awaiting + {id});
    if s.flight[id].notify then t else Absorb(t, id)
  }

  // ---- network.c: sending and receiving ----

  /** A route to the destination exists, and the message fits every buffer. */
  ghost predicate Deliverable(c: Config, src: nat, dst: nat, size: nat)
    requires ValidConfig(c)
  {
    && src < |c.net.nodes| && dst < |c.net.nodes| && src != dst && size >= 1
    && c.net.nodes[src].kind == EndNode && c.net.nodes[dst].kind == EndNode
    && (exists k :: Hops(c.net, c.table, src, dst, k))
    && (forall b: nat :: IsBuffer(c, b) ==> Owner(c, b) < |c.net.nodes| && size <= Capacity(c, b))
  }

  /** The source's output buffer towards the destination is free to be written, and has
      room for as many bytes. */
  ghost predicate MaySend(c: Config, s: State, src: nat, dst: nat, size: nat) {
    && src < |c.table| && dst < |c.table[src]|
    && var out := c.table[src][dst].out;
    && IsBuffer(c, out) && out < |s.buffers| && Owner(c, out) < |c.net.nodes|
    && s.buffers[out].writeBusy < s.cycle
    && s.buffers[out].count + size <= Capacity(c, out)
  }

  /** The message enters the source's output buffer. */
  function Inject(c: Config, s: State, src: nat, dst: nat, size: nat, notify: bool, out: nat): State
    requires Shape(c, s) && IsBuffer(c, out)
  {
    var id := s.lastId + 1;
    Arrive(s.(lastId := id), id, Msg(size, src, dst, src, out, s.cycle, notify, 0))
  }

  /** Send if the output buffer is free and has room, else arrange a retry. */
  ghost function TrySend(c: Config, s: State, src: nat, dst: nat, size: nat, notify: bool, tag: nat): State
    requires ValidConfig(c) && Shape(c, s) && Deliverable(c, src, dst, size)
  {
    var k :| Hops(c.net, c.table, src, dst, k);
    assert Linked(c.net, src, c.table[src][dst]);
    var out := c.table[src][dst].out;
    assert IsBuffer(c, out as nat);
    if s.buffers[out].writeBusy >= s.cycle then
      Schedule(s, Retry(tag), Delay(s.cycle, s.buffers[out].writeBusy))
    else if s.buffers[out].count + size > Capacity(c, out) then Wait(s, out, Retry(tag))
    else Schedule(Inject(c, s, src, dst, size, notify, out), OutputBuffer(s.lastId + 1), 1)
  }

  // ---- Runs ----

  /** What can happen next: the heap hands out an event of the current cycle, the
      clock moves on, a client tries to send, or a receiver takes its message. */
  datatype Action =
    | Handle(at: nat)
    | Advance
    | Send(src: nat, dst: nat, size: nat, notify: bool, tag: nat)
    | Take(id: nat)

  function InitialBuffer(): Buffer {
    Buffer(0, 0, 0, [], [], 0, NONE, 0, 0, 0)
  }

  /** The simulation starts in cycle 1 with an empty network. */
  function Initial(c: Config): (s: State)
    ensures Shape(c, s)
  {
    var n := 2 * |c.net.links|;
    State(1, seq(n, i => InitialBuffer()), seq(|c.net.links|, i => LinkState(0, 0, 0)),
          [], map[], 0, {}, [], seq(n, i => 0))
  }
}
