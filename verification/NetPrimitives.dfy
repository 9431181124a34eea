/** Each primitive change of state keeps the invariant. The parameter `handled` of the
    invariant names the message whose continuation the running handler has in hand. */
module NetPrimitives {
  import opened Sequences
  import opened NetState
  import opened NetInvariant

  // ---- Changes that leave messages where they are ----

  /** The two states agree on everything but events, wakeup entries and scheduler
      decisions. */
  ghost predicate SameCore(s: State, t: State) {
    && t.cycle == s.cycle && t.flight == s.flight && t.lastId == s.lastId && t.awaiting == s.awaiting
    && |t.buffers| == |s.buffers| && |t.links| == |s.links| && |t.held| == |s.held|
    && forall b: nat :: b < |s.buffers| ==> SameBuffer(s.buffers[b], t.buffers[b])
  }

  ghost predicate SameBuffer(a: Buffer, b: Buffer) {
    a.msgs == b.msgs && a.count == b.count
  }

  lemma CorePlaced(c: Config, s: State, t: State)
    requires Placed(c, s) && SameCore(s, t)
    ensures Placed(c, t)
  {
    forall id | id in t.flight
      ensures PlacedMsg(c, t, id)
    {
      assert PlacedMsg(c, s, id);
      assert SameBuffer(s.buffers[s.flight[id].buffer], t.buffers[s.flight[id].buffer]);
    }
    forall b: nat | b < |t.buffers|
      ensures PlacedBuffer(t, b)
    {
      assert PlacedBuffer(s, b) && SameBuffer(s.buffers[b], t.buffers[b]);
    }
  }

  lemma CoreCounted(c: Config, s: State, t: State)
    requires ValidConfig(c) && Shape(c, s) && Counted(c, s) && SameCore(s, t)
    ensures Shape(c, t) && Counted(c, t)
  {
    forall b: nat | b < |t.buffers|
      ensures CountedBuffer(c, t, b)
    {
      assert CountedBuffer(c, s, b) && SameBuffer(s.buffers[b], t.buffers[b]);
    }
  }

  lemma CoreHead(c: Config, s: State, t: State, id: nat)
    requires Placed(c, s) && SameCore(s, t) && id in s.flight
    ensures Placed(c, t) && IsBuffer(c, s.flight[id].buffer)
    ensures IsHead(s, id) == IsHead(t, id) && Arrived(c, s, id) == Arrived(c, t, id)
  {
    CorePlaced(c, s, t);
    assert PlacedMsg(c, s, id);
    assert SameBuffer(s.buffers[s.flight[id].buffer], t.buffers[s.flight[id].buffer]);
  }

  lemma CoreAwaiting(c: Config, s: State, t: State)
    requires Placed(c, s) && SameCore(s, t) && AwaitingOk(c, s)
    ensures Placed(c, t) && AwaitingOk(c, t)
  {
    CorePlaced(c, s, t);
    forall id | id in t.awaiting
      ensures id in t.flight && Arrived(c, t, id)
    {
      CoreHead(c, s, t, id);
    }
  }

  lemma CoreEvent(c: Config, s: State, t: State, e: Event)
    requires ValidConfig(c) && Placed(c, s) && SameCore(s, t) && EventOk(c, s, e)
    ensures Placed(c, t) && EventOk(c, t, e)
  {
    CorePlaced(c, s, t);
    if e.resume.Receive? {
      CoreHead(c, s, t, e.resume.id);
    }
  }

  lemma CoreWakeup(c: Config, s: State, t: State, b: nat, r: Resume)
    requires ValidConfig(c) && Placed(c, s) && SameCore(s, t) && b < |s.buffers| && WakeupOk(c, s, b, r)
    ensures Placed(c, t) && WakeupOk(c, t, b, r)
  {
    CorePlaced(c, s, t);
    assert SameBuffer(s.buffers[b], t.buffers[b]);
    if !r.Retry? {
      CoreHead(c, s, t, r.id);
    }
  }

  /** What remains to be shown when only events and wakeup entries changed. */
  lemma CoreInv(c: Config, s: State, t: State, handled: set<nat>, after: set<nat>)
    requires Inv(c, s, handled) && SameCore(s, t) && after <= handled
    requires Conserved(t, after)
    requires forall i :: 0 <= i < |t.events| ==> t.events[i] in s.events || EventOk(c, s, t.events[i])
    requires forall b: nat, j: nat :: b < |t.buffers| && j < |t.buffers[b].wakeups| ==>
      t.buffers[b].wakeups[j] in s.buffers[b].wakeups || WakeupOk(c, s, b, t.buffers[b].wakeups[j])
    ensures Inv(c, t, after)
  {
    CorePlaced(c, s, t);
    CoreCounted(c, s, t);
    CoreAwaiting(c, s, t);
    forall i | 0 <= i < |t.events|
      ensures EventOk(c, t, t.events[i])
    {
      if t.events[i] in s.events {
        var k :| 0 <= k < |s.events| && s.events[k] == t.events[i];
        assert EventOk(c, s, s.events[k]);
      }
      CoreEvent(c, s, t, t.events[i]);
    }
    forall b: nat, j: nat | b < |t.buffers| && j < |t.buffers[b].wakeups|
      ensures WakeupOk(c, t, b, t.buffers[b].wakeups[j])
    {
      if t.buffers[b].wakeups[j] in s.buffers[b].wakeups {
        var k: nat :| k < |s.buffers[b].wakeups| && s.buffers[b].wakeups[k] == t.buffers[b].wakeups[j];
        assert WakeupOk(c, s, b, s.buffers[b].wakeups[k]);
      }
      CoreWakeup(c, s, t, b, t.buffers[b].wakeups[j]);
    }
  }

  /** The message in hand, if the continuation is a message's. */
  function InHand(r: Resume): set<nat> {
    if r.Retry? then {} else {r.id}
  }

  lemma PopPending(s: State, i: nat)
    requires i < |s.events|
    ensures Pending(s) == Pending(Pop(s, i)) + multiset{s.events[i].resume.Who()}
  {
    var ps := EventParties(s.events);
    MultisetRemove(ps, i);
    assert EventParties(Pop(s, i).events) == ps[..i] + ps[i + 1..];
  }

  lemma TakeInHand(s: State, t: State, r: Resume)
    requires Conserved(s, {}) && t.flight == s.flight && t.awaiting == s.awaiting
    requires Pending(s) == Pending(t) + multiset{r.Who()}
    ensures Conserved(t, InHand(r))
  {
    forall id: nat
      ensures ConservedMsg(t, InHand(r), id)
    {
      assert ConservedMsg(s, {}, id);
      assert Pending(s)[Message(id)] == Pending(t)[Message(id)] + multiset{r.Who()}[Message(id)];
    }
  }

  lemma PopKeeps(c: Config, s: State, i: nat)
    requires Inv(c, s, {}) && i < |s.events|
    ensures Inv(c, Pop(s, i), InHand(s.events[i].resume))
    ensures EventOk(c, s, s.events[i])
  {
    var t := Pop(s, i);
    var r := s.events[i].resume;
    PopPending(s, i);
    assert EventOk(c, s, s.events[i]);
    EventIsPending(s, i);
    if !r.Retry? {
      assert ConservedMsg(s, {}, r.id);
    }
    TakeInHand(s, t, r);
    assert SameCore(s, t);
    HandInv(c, s, t, InHand(r));
  }

  /** Taking a continuation in hand. */
  lemma HandInv(c: Config, s: State, t: State, hand: set<nat>)
    requires Inv(c, s, {}) && SameCore(s, t) && Conserved(t, hand)
    requires hand <= t.flight.Keys && hand !! t.awaiting
    requires t.buffers == s.buffers
    requires forall i :: 0 <= i < |t.events| ==> t.events[i] in s.events
    ensures Inv(c, t, hand)
  {
    CorePlaced(c, s, t);
    CoreCounted(c, s, t);
    CoreAwaiting(c, s, t);
    forall i | 0 <= i < |t.events|
      ensures EventOk(c, t, t.events[i])
    {
      var k :| 0 <= k < |s.events| && s.events[k] == t.events[i];
      CoreEvent(c, s, t, s.events[k]);
    }
    forall b: nat, j: nat | b < |t.buffers| && j < |t.buffers[b].wakeups|
      ensures WakeupOk(c, t, b, t.buffers[b].wakeups[j])
    {
      assert WakeupOk(c, s, b, s.buffers[b].wakeups[j]);
      CoreWakeup(c, s, t, b, t.buffers[b].wakeups[j]);
    }
  }

  lemma SchedulePending(s: State, r: Resume, after: int)
    ensures Pending(Schedule(s, r, after)) == Pending(s) + multiset{r.Who()}
  {
    var t := Schedule(s, r, after);
    assert EventParties(t.events) == EventParties(s.events) + [r.Who()];
  }

  /** Continuations stay as they are while a message enters or leaves in hand. */
  lemma SameConserved(s: State, t: State, before: set<nat>, after: set<nat>)
    requires Conserved(s, before) && Pending(t) == Pending(s)
    requires forall id :: (id in s.flight && id !in s.awaiting && id !in before) <==>
                          (id in t.flight && id !in t.awaiting && id !in after)
    ensures Conserved(t, after)
  {
    forall id: nat
      ensures ConservedMsg(t, after, id)
    {
      assert ConservedMsg(s, before, id);
    }
  }

  /** Putting the continuation back. */
  lemma PutBack(s: State, t: State, r: Resume)
    requires Conserved(s, InHand(r)) && t.flight == s.flight && t.awaiting == s.awaiting
    requires InHand(r) <= s.flight.Keys && InHand(r) !! s.awaiting
    requires Pending(t) == Pending(s) + multiset{r.Who()}
    ensures Conserved(t, {})
  {
    forall id: nat
      ensures ConservedMsg(t, {}, id)
    {
      assert ConservedMsg(s, InHand(r), id);
      assert Pending(t)[Message(id)] == Pending(s)[Message(id)] + multiset{r.Who()}[Message(id)];
    }
  }

  lemma ScheduleKeeps(c: Config, s: State, r: Resume, after: int)
    requires Inv(c, s, InHand(r))
    requires EventOk(c, s, Event(s.cycle + after, r))
    ensures Inv(c, Schedule(s, r, after), {})
  {
    var t := Schedule(s, r, after);
    SchedulePending(s, r, after);
    PutBack(s, t, r);
    CoreInv(c, s, t, InHand(r), {});
  }

  lemma WaitPending(s: State, b: nat, r: Resume)
    requires b < |s.buffers|
    ensures Pending(Wait(s, b, r)) == Pending(s) + multiset{r.Who()}
  {
    var b' := s.buffers[b].(wakeups := s.buffers[b].wakeups + [r]);
    WaitingUpdate(s.buffers, b, b');
    var before := Parties(s.buffers[b].wakeups);
    assert Parties(b'.wakeups) == before + [r.Who()];
    assert multiset(Parties(b'.wakeups)) == multiset(before) + multiset{r.Who()};
    Cancel(Waiting(s.buffers[b := b']), Waiting(s.buffers), multiset(before), multiset{r.Who()});
  }

  lemma WaitKeeps(c: Config, s: State, b: nat, r: Resume)
    requires Inv(c, s, InHand(r)) && b < |s.buffers|
    requires WakeupOk(c, s, b, r)
    ensures Inv(c, Wait(s, b, r), {})
  {
    var t := Wait(s, b, r);
    WaitPending(s, b, r);
    PutBack(s, t, r);
    assert SameCore(s, t) && t.events == s.events;
    forall x: nat, j: nat | x < |t.buffers| && j < |t.buffers[x].wakeups|
      ensures t.buffers[x].wakeups[j] in s.buffers[x].wakeups || WakeupOk(c, s, x, t.buffers[x].wakeups[j])
    {
      if x == b && j == |s.buffers[b].wakeups| {
        assert t.buffers[x].wakeups[j] == r;
      } else {
        assert t.buffers[x].wakeups[j] == s.buffers[x].wakeups[j];
      }
    }
    CoreInv(c, s, t, InHand(r), {});
  }

  /** A scheduler decision changes nothing that the invariant is about. */
  lemma DecisionKeeps(c: Config, s: State, out: nat, buffer: Buffer, handled: set<nat>)
    requires Inv(c, s, handled) && out < |s.buffers|
    requires SameBuffer(s.buffers[out], buffer) && buffer.wakeups == s.buffers[out].wakeups
    ensures Inv(c, s.(buffers := s.buffers[out := buffer]), handled)
    ensures Pending(s.(buffers := s.buffers[out := buffer])) == Pending(s)
  {
    var t := s.(buffers := s.buffers[out := buffer]);
    WaitingUpdate(s.buffers, out, buffer);
    Cancel(Waiting(t.buffers), Waiting(s.buffers), multiset(Parties(buffer.wakeups)), multiset{});
    assert Pending(t) == Pending(s);
    SameConserved(s, t, handled, handled);
    assert SameCore(s, t);
    CoreInv(c, s, t, handled, handled);
  }

  // ---- Extraction ----

  /** A party without continuation owns no entry. */
  lemma NoEntry(s: State, id: nat)
    requires Message(id) !in Pending(s)
    ensures forall i :: 0 <= i < |s.events| ==> s.events[i].resume.Who() != Message(id)
    ensures forall b: nat, j: nat :: b < |s.buffers| && j < |s.buffers[b].wakeups| ==>
      s.buffers[b].wakeups[j].Who() != Message(id)
  {
    forall i | 0 <= i < |s.events|
      ensures s.events[i].resume.Who() != Message(id)
    {
      EventIsPending(s, i);
    }
    forall b: nat, j: nat | b < |s.buffers| && j < |s.buffers[b].wakeups|
      ensures s.buffers[b].wakeups[j].Who() != Message(id)
    {
      EntryIsPending(s, b, j);
    }
  }

  ghost predicate MayDepart(c: Config, s: State, id: nat) {
    Placed(c, s) && id in s.flight && IsBuffer(c, s.flight[id].buffer) && IsHead(s, id)
  }

  lemma DepartPlaced(c: Config, s: State, id: nat)
    requires MayDepart(c, s, id)
    ensures Placed(c, Depart(s, id))
  {
    var t := Depart(s, id);
    var from := s.flight[id].buffer;
    var msgs := s.buffers[from].msgs;
    assert PlacedBuffer(s, from);
    assert t.buffers[from].msgs == msgs[1..];
    assert forall i :: 0 <= i < |msgs| - 1 ==> msgs[1..][i] == msgs[i + 1] && msgs[i + 1] != msgs[0];
    forall x | x in t.flight
      ensures PlacedMsg(c, t, x)
    {
      assert PlacedMsg(c, s, x);
      if s.flight[x].buffer == from {
        var i :| 0 <= i < |msgs| && msgs[i] == x;
        assert msgs[1..][i - 1] == x;
      }
    }
    forall b: nat | b < |t.buffers|
      ensures PlacedBuffer(t, b)
    {
      assert PlacedBuffer(s, b);
    }
  }

  lemma DepartCounted(c: Config, s: State, id: nat)
    requires ValidConfig(c) && MayDepart(c, s, id) && Counted(c, s)
    ensures Shape(c, Depart(s, id)) && Counted(c, Depart(s, id))
  {
    var t := Depart(s, id);
    DepartPlaced(c, s, id);
    forall b: nat | b < |t.buffers|
      ensures CountedBuffer(c, t, b)
    {
      assert CountedBuffer(c, s, b) && PlacedBuffer(t, b);
      TotalFrame(s.flight, t.flight, t.buffers[b].msgs);
    }
  }

  /** The other messages keep their places, except that their buffer's head may leave. */
  lemma DepartHead(c: Config, s: State, id: nat, x: nat)
    requires MayDepart(c, s, id) && x in s.flight && x != id
    ensures var t := Depart(s, id);
            && Placed(c, t) && x in t.flight && t.flight[x] == s.flight[x]
            && IsBuffer(c, s.flight[x].buffer)
            && (IsHead(s, x) ==> IsHead(t, x))
            && (s.flight[x].buffer != s.flight[id].buffer ==> IsHead(t, x) == IsHead(s, x))
            && (Arrived(c, s, x) ==> Arrived(c, t, x))
  {
    DepartPlaced(c, s, id);
    assert PlacedMsg(c, s, x);
  }

  lemma DepartEvent(c: Config, s: State, id: nat, e: Event)
    requires ValidConfig(c) && MayDepart(c, s, id) && EventOk(c, s, e) && e.resume.Who() != Message(id)
    ensures Placed(c, Depart(s, id)) && EventOk(c, Depart(s, id), e)
  {
    DepartPlaced(c, s, id);
    if !e.resume.Retry? {
      DepartHead(c, s, id, e.resume.id);
    }
  }

  /** A woken entry is a proper event of the current cycle. */
  lemma WakeupIsEvent(c: Config, s: State, b: nat, r: Resume)
    requires ValidConfig(c) && Placed(c, s) && b < |s.buffers| && WakeupOk(c, s, b, r)
    ensures EventOk(c, s, Event(s.cycle, r))
  {
  }

  lemma DepartEvents(c: Config, s: State, id: nat)
    requires ValidConfig(c) && MayDepart(c, s, id) && EventsOk(c, s) && WakeupsOk(c, s)
    requires Message(id) !in Pending(s)
    ensures Placed(c, Depart(s, id)) && EventsOk(c, Depart(s, id))
  {
    var t := Depart(s, id);
    var from := s.flight[id].buffer;
    DepartPlaced(c, s, id);
    NoEntry(s, id);
    forall i | 0 <= i < |t.events|
      ensures EventOk(c, t, t.events[i])
    {
      if i < |s.events| {
        assert t.events[i] == s.events[i] && EventOk(c, s, s.events[i]);
      } else {
        var r := s.buffers[from].wakeups[i - |s.events|];
        assert WakeupOk(c, s, from, r);
        assert t.events[i] == Event(s.cycle, r);
        WakeupIsEvent(c, s, from, r);
      }
      DepartEvent(c, s, id, t.events[i]);
    }
  }

  lemma DepartWakeups(c: Config, s: State, id: nat)
    requires ValidConfig(c) && MayDepart(c, s, id) && WakeupsOk(c, s)
    requires Message(id) !in Pending(s)
    ensures Placed(c, Depart(s, id)) && WakeupsOk(c, Depart(s, id))
  {
    var t := Depart(s, id);
    DepartPlaced(c, s, id);
    NoEntry(s, id);
    forall b: nat, j: nat | b < |t.buffers| && j < |t.buffers[b].wakeups|
      ensures WakeupOk(c, t, b, t.buffers[b].wakeups[j])
    {
      var r := s.buffers[b].wakeups[j];
      assert t.buffers[b] == s.buffers[b] && b != s.flight[id].buffer;
      assert WakeupOk(c, s, b, r);
      if !r.Retry? {
        DepartHead(c, s, id, r.id);
      }
    }
  }

  /** Waking moves a buffer's entries to the heap: none is lost or repeated. */
  lemma DepartPending(c: Config, s: State, id: nat)
    requires MayDepart(c, s, id)
    ensures Pending(Depart(s, id)) == Pending(s)
  {
    var b := s.flight[id].buffer;
    var t := Depart(s, id);
    var rs := s.buffers[b].wakeups;
    assert EventParties(t.events) == EventParties(s.events) + Parties(rs);
    assert multiset(EventParties(t.events)) == multiset(EventParties(s.events)) + multiset(Parties(rs));
    WaitingUpdate(s.buffers, b, t.buffers[b]);
    assert Parties(t.buffers[b].wakeups) == [];
    assert Waiting(s.buffers) == Waiting(t.buffers) + multiset(Parties(rs));
  }

  lemma DepartKeeps(c: Config, s: State, id: nat, handled: set<nat>)
    requires Inv(c, s, handled) && MayDepart(c, s, id)
    requires id in handled || id in s.awaiting
    ensures Inv(c, Depart(s, id), handled - {id})
  {
    var t := Depart(s, id);
    assert ConservedMsg(s, handled, id);
    DepartPlaced(c, s, id);
    DepartCounted(c, s, id);
    DepartEvents(c, s, id);
    DepartWakeups(c, s, id);
    DepartPending(c, s, id);
    SameConserved(s, t, handled, handled - {id});
    forall x | x in t.awaiting
      ensures x in t.flight && Arrived(c, t, x)
    {
      DepartHead(c, s, id, x);
    }
  }

  // ---- Insertion ----

  ghost predicate MayArrive(c: Config, s: State, id: nat, m: Msg) {
    && Placed(c, s)
    && id !in s.flight && id <= s.lastId
    && IsBuffer(c, m.buffer) && m.node == Owner(c, m.buffer) && m.size >= 1
  }

  lemma ArrivePlaced(c: Config, s: State, id: nat, m: Msg)
    requires MayArrive(c, s, id, m)
    ensures Placed(c, Arrive(s, id, m))
  {
    var t := Arrive(s, id, m);
    assert PlacedBuffer(s, m.buffer);
    assert t.buffers[m.buffer].msgs == s.buffers[m.buffer].msgs + [id];
    forall x | x in t.flight
      ensures PlacedMsg(c, t, x)
    {
      assert x == id || PlacedMsg(c, s, x);
    }
    forall b: nat | b < |t.buffers|
      ensures PlacedBuffer(t, b)
    {
      assert PlacedBuffer(s, b);
    }
  }

  lemma ArriveCounted(c: Config, s: State, id: nat, m: Msg)
    requires ValidConfig(c) && MayArrive(c, s, id, m) && Counted(c, s)
    requires Owner(c, m.buffer) < |c.net.nodes|
    requires s.buffers[m.buffer].count + m.size <= Capacity(c, m.buffer)
    ensures Shape(c, Arrive(s, id, m)) && Counted(c, Arrive(s, id, m))
  {
    var t := Arrive(s, id, m);
    forall b: nat | b < |t.buffers|
      ensures CountedBuffer(c, t, b)
    {
      assert CountedBuffer(c, s, b) && PlacedBuffer(s, b);
      TotalFrame(s.flight, t.flight, s.buffers[b].msgs);
      if b == m.buffer {
        TotalAppend(t.flight, s.buffers[b].msgs, id);
      }
    }
  }

  /** The messages already there keep their places. */
  lemma ArriveHead(c: Config, s: State, id: nat, m: Msg, x: nat)
    requires MayArrive(c, s, id, m) && x in s.flight
    ensures var t := Arrive(s, id, m);
            && Placed(c, t) && x in t.flight && t.flight[x] == s.flight[x]
            && IsBuffer(c, s.flight[x].buffer)
            && IsHead(t, x) == IsHead(s, x)
            && Arrived(c, s, x) == Arrived(c, t, x)
  {
    ArrivePlaced(c, s, id, m);
    assert PlacedMsg(c, s, x);
  }

  lemma ArriveEvents(c: Config, s: State, id: nat, m: Msg)
    requires ValidConfig(c) && MayArrive(c, s, id, m) && EventsOk(c, s)
    ensures Placed(c, Arrive(s, id, m)) && EventsOk(c, Arrive(s, id, m))
  {
    var t := Arrive(s, id, m);
    ArrivePlaced(c, s, id, m);
    forall i | 0 <= i < |t.events|
      ensures EventOk(c, t, t.events[i])
    {
      assert EventOk(c, s, s.events[i]);
      if !s.events[i].resume.Retry? {
        ArriveHead(c, s, id, m, s.events[i].resume.id);
      }
    }
  }

  lemma ArriveWakeups(c: Config, s: State, id: nat, m: Msg)
    requires ValidConfig(c) && MayArrive(c, s, id, m) && WakeupsOk(c, s)
    ensures Placed(c, Arrive(s, id, m)) && WakeupsOk(c, Arrive(s, id, m))
  {
    var t := Arrive(s, id, m);
    ArrivePlaced(c, s, id, m);
    forall b: nat, j: nat | b < |t.buffers| && j < |t.buffers[b].wakeups|
      ensures WakeupOk(c, t, b, t.buffers[b].wakeups[j])
    {
      var r := s.buffers[b].wakeups[j];
      assert t.buffers[b].wakeups[j] == r && WakeupOk(c, s, b, r);
      if !r.Retry? {
        ArriveHead(c, s, id, m, r.id);
      }
    }
  }

  lemma ArrivePending(s: State, id: nat, m: Msg)
    requires m.buffer < |s.buffers|
    ensures Pending(Arrive(s, id, m)) == Pending(s)
  {
    var t := Arrive(s, id, m);
    WaitingUpdate(s.buffers, m.buffer, t.buffers[m.buffer]);
    Cancel(Waiting(t.buffers), Waiting(s.buffers), multiset(Parties(s.buffers[m.buffer].wakeups)), multiset{});
  }

  lemma ArriveAwaiting(c: Config, s: State, id: nat, m: Msg)
    requires MayArrive(c, s, id, m) && AwaitingOk(c, s)
    ensures Placed(c, Arrive(s, id, m)) && AwaitingOk(c, Arrive(s, id, m))
  {
    var t := Arrive(s, id, m);
    ArrivePlaced(c, s, id, m);
    forall x | x in t.awaiting
      ensures x in t.flight && Arrived(c, t, x)
    {
      ArriveHead(c, s, id, m, x);
    }
  }

  lemma ArriveKeeps(c: Config, s: State, id: nat, m: Msg, handled: set<nat>)
    requires Inv(c, s, handled) && MayArrive(c, s, id, m)
    requires RoutedMsg(c, m)
    requires s.buffers[m.buffer].count + m.size <= Capacity(c, m.buffer)
    ensures Inv(c, Arrive(s, id, m), handled + {id})
  {
    var t := Arrive(s, id, m);
    ArrivePlaced(c, s, id, m);
    ArriveCounted(c, s, id, m);
    ArriveEvents(c, s, id, m);
    ArriveWakeups(c, s, id, m);
    ArrivePending(s, id, m);
    SameConserved(s, t, handled, handled + {id});
    ArriveAwaiting(c, s, id, m);
    ArriveRouted(c, s, id, m);
  }

  lemma ArriveRouted(c: Config, s: State, id: nat, m: Msg)
    requires ValidConfig(c) && Routed(c, s) && RoutedMsg(c, m) && m.buffer < |s.buffers|
    ensures Routed(c, Arrive(s, id, m))
  {
  }

  // ---- Movement ----

  lemma VacateKeeps(c: Config, s: State, id: nat, until: int)
    requires Inv(c, s, {id}) && MayDepart(c, s, id)
    ensures Inv(c, Vacate(s, id, until), {})
    ensures Pending(Vacate(s, id, until)) == Pending(s)
  {
    var t := Depart(s, id);
    DepartKeeps(c, s, id, {id});
    DepartPending(c, s, id);
    assert {id} - {id} == {};
    var b := s.flight[id].buffer;
    DecisionKeeps(c, t, b, t.buffers[b].(readBusy := until), {});
  }

  lemma VacateFrame(c: Config, s: State, id: nat, until: int)
    requires MayDepart(c, s, id)
    ensures var t := Vacate(s, id, until);
            && t.cycle == s.cycle && t.lastId == s.lastId && |t.buffers| == |s.buffers| && id !in t.flight
            && forall b: nat :: b < |s.buffers| && b != s.flight[id].buffer ==> t.buffers[b] == s.buffers[b]
  {
  }

  /** Moving the head of one buffer to the tail of another. */
  lemma RelocateKeeps(c: Config, s: State, id: nat, to: nat, until: int)
    requires Inv(c, s, {id}) && MayDepart(c, s, id)
    requires IsBuffer(c, to) && to != s.flight[id].buffer && Owner(c, to) < |c.net.nodes|
    requires s.buffers[to].count + s.flight[id].size <= Capacity(c, to)
    requires RoutedMsg(c, Moved(c, s.flight[id], to, until))
    ensures Inv(c, Transfer(c, s, id, to, until), {id})
    ensures Pending(Transfer(c, s, id, to, until)) == Pending(s)
  {
    VacateKeeps(c, s, id, until);
    VacateFrame(c, s, id, until);
    assert PlacedMsg(c, s, id);
    InsertKeeps(c, Vacate(s, id, until), id, Moved(c, s.flight[id], to, until));
  }

  lemma InsertKeeps(c: Config, t: State, id: nat, m: Msg)
    requires Inv(c, t, {}) && MayArrive(c, t, id, m) && RoutedMsg(c, m)
    requires t.buffers[m.buffer].count + m.size <= Capacity(c, m.buffer)
    ensures Inv(c, Arrive(t, id, m), {id})
    ensures Pending(Arrive(t, id, m)) == Pending(t)
  {
    ArriveKeeps(c, t, id, m, {});
    ArrivePending(t, id, m);
    assert {} + {id} == {id};
  }

  // ---- Links and the clock ----

  lemma TransmitKeeps(c: Config, s: State, l: nat, size: nat, lat: int, handled: set<nat>)
    requires Inv(c, s, handled) && l < |s.links|
    ensures Inv(c, Transmit(s, l, size, lat), handled)
    ensures Pending(Transmit(s, l, size, lat)) == Pending(s)
  {
    var t := Transmit(s, l, size, lat);
    SameConserved(s, t, handled, handled);
    assert SameCore(s, t);
    CoreInv(c, s, t, handled, handled);
  }

  /** Counters and the clock may grow, and arrived messages may start to await their
      receiver, while buffers and events stay as they are. */
  lemma SameNetworkKeeps(c: Config, s: State, t: State, before: set<nat>, after: set<nat>)
    requires Inv(c, s, before)
    requires t.flight == s.flight && t.buffers == s.buffers && t.events == s.events
    requires |t.links| == |s.links| && |t.held| == |s.held|
    requires s.lastId <= t.lastId && s.cycle <= t.cycle
    requires forall i :: 0 <= i < |s.events| ==> s.events[i].time >= t.cycle
    requires forall id :: id in t.awaiting ==> id in s.flight && Arrived(c, s, id)
    requires forall id :: id in s.flight ==> ((id in s.awaiting || id in before) <==> (id in t.awaiting || id in after))
    requires after <= t.flight.Keys && after !! t.awaiting
    ensures Inv(c, t, after)
    ensures Pending(t) == Pending(s)
  {
    SameConserved(s, t, before, after);
    forall id | id in t.flight
      ensures PlacedMsg(c, t, id)
    {
      assert PlacedMsg(c, s, id);
    }
    forall b: nat | b < |t.buffers|
      ensures PlacedBuffer(t, b) && CountedBuffer(c, t, b)
    {
      assert PlacedBuffer(s, b) && CountedBuffer(c, s, b);
    }
    forall i | 0 <= i < |t.events|
      ensures EventOk(c, t, t.events[i])
    {
      assert EventOk(c, s, s.events[i]);
    }
    forall b: nat, j: nat | b < |t.buffers| && j < |t.buffers[b].wakeups|
      ensures WakeupOk(c, t, b, t.buffers[b].wakeups[j])
    {
      assert WakeupOk(c, s, b, s.buffers[b].wakeups[j]);
    }
  }

  /** The clock may move when every event lies ahead. */
  lemma TickKeeps(c: Config, s: State)
    requires Inv(c, s, {})
    requires forall i :: 0 <= i < |s.events| ==> s.events[i].time > s.cycle
    ensures Inv(c, Tick(c, s), {})
    ensures Pending(Tick(c, s)) == Pending(s)
  {
    SameNetworkKeeps(c, s, Tick(c, s), {}, {});
  }
}
