/** Coherence over every run of the protocol. */
module CoherenceRuns {
  import opened Sequences
  import opened Coherence
  import opened CoherenceInvariant
  import opened CoherenceSteps

  // ---- Runs whose stores keep the data right ----

  /** A single cache is never in state O. */
  predicate NeverOwned(p: Params, s: State) {
    p.caches <= 1 ==> forall k :: 0 <= k < |s.lines| ==> s.lines[k].state != Owned
  }

  /** The exact condition on the parameters under which the data stays right. */
  predicate Faithful(p: Params) {
    !p.install || p.words == 1 || p.caches <= 1
  }

  /** With faithful parameters the reply to every write request serves. */
  lemma FaithfulServes(p: Params, s: State)
    requires Inv(p, s) && NeverOwned(p, s) && Faithful(p) && Enabled(p, s, WriteFinish)
    ensures ReplyServes(p, s)
  {
    WriteAnswered(p, s);
  }

  lemma StaysNeverOwned(p: Params, s: State, a: Action)
    requires Inv(p, s) && NeverOwned(p, s) && Enabled(p, s, a) && Safe(p, s, a)
    ensures NeverOwned(p, Apply(p, s, a))
  {
    if p.caches <= 1 && a.Answer? {
      NobodyAsked(p, s, a.k);
    }
  }

  /** A single cache is never asked by another. */
  lemma NobodyAsked(p: Params, s: State, k: nat)
    requires Inv(p, s) && p.caches <= 1
    ensures !Enabled(p, s, Answer(k))
  {
    if k < |s.lines| {
      assert LineOk(p, s, k);
    }
  }

  lemma FaithfulStep(p: Params, s: State, a: Action)
    requires Inv(p, s) && NeverOwned(p, s) && Faithful(p) && Enabled(p, s, a)
    ensures Safe(p, s, a) && Inv(p, Apply(p, s, a)) && NeverOwned(p, Apply(p, s, a))
  {
    if a.WriteFinish? {
      FaithfulServes(p, s);
    }
    StepKeeps(p, s, a);
    StaysNeverOwned(p, s, a);
  }

  lemma InitialHolds(p: Params, memory: Block)
    requires ValidParams(p) && |memory| == p.words
    ensures Inv(p, Initial(p, memory)) && NeverOwned(p, Initial(p, memory))
  {
  }

  lemma {:induction false} LeadsKeeps(p: Params, s: State, actions: seq<Action>, t: State)
    requires Inv(p, s) && NeverOwned(p, s) && Faithful(p) && Leads(p, s, actions, t)
    ensures Inv(p, t) && NeverOwned(p, t)
    decreases |actions|
  {
    if actions != [] {
      FaithfulStep(p, s, actions[0]);
      LeadsKeeps(p, Apply(p, s, actions[0]), actions[1..], t);
    }
  }

  lemma ReachableInv(p: Params, s: State)
    requires Reachable(p, s) && Faithful(p)
    ensures Inv(p, s) && NeverOwned(p, s)
  {
    var memory, actions :| |memory| == p.words && Leads(p, Initial(p, memory), actions, s);
    InitialHolds(p, memory);
    LeadsKeeps(p, Initial(p, memory), actions, s);
  }

  // ---- The same steps with other data ----

  /** Two states that differ only in what the blocks contain. */
  predicate SameControl(s: State, t: State) {
    SameLines(s, t) && SameEntry(s, t)
  }

  predicate SameLines(s: State, t: State) {
    |t.lines| == |s.lines| && forall k :: 0 <= k < |s.lines| ==> SameLine(s.lines[k], t.lines[k])
  }

  predicate SameEntry(s: State, t: State) {
    && t.entry.(lock := Unlocked) == s.entry.(lock := Unlocked)
    && SameEntryLock(s.entry.lock, t.entry.lock)
  }

  predicate SameLine(a: Line, b: Line) {
    && a.state == b.state
    && match a.lock
       case Loading(r) => b.lock.Loading? && b.lock.received.Some? == r.Some?
       case Loaded(shared, reply, r) =>
         && b.lock.Loaded? && b.lock.shared == shared
         && b.lock.reply.size == reply.size && b.lock.received.Some? == r.Some?
       case Granted(word, value, reply) =>
         b.lock.Granted? && b.lock.word == word && b.lock.value == value && b.lock.reply.size == reply.size
       case _ => b.lock == a.lock
  }

  predicate SameReplies(a: map<nat, Reply>, b: map<nat, Reply>) {
    && a.Keys == b.Keys
    && forall k :: k in a ==> a[k].size == b[k].size
  }

  predicate SameEntryLock(a: EntryLock, b: EntryLock) {
    match a
    case Writing(i, pending, replies) =>
      b.Writing? && b.cache == i && b.pending == pending && SameReplies(replies, b.replies)
    case Clearing(pending, replies) => b.Clearing? && b.pending == pending && SameReplies(replies, b.replies)
    case _ => b == a
  }

  /** Neither what can happen nor what the code asserts depends on the data. */
  lemma ControlEnables(p: Params, q: Params, s: State, t: State, a: Action)
    requires SameControl(s, t) && q == p.(install := q.install)
    ensures Enabled(p, s, a) == Enabled(q, t, a)
  {
    forall k | 0 <= k < |s.lines|
      ensures s.lines[k].lock == Free <==> t.lines[k].lock == Free
    {
      assert SameLine(s.lines[k], t.lines[k]);
    }
  }

  lemma ControlDecides(p: Params, q: Params, s: State, t: State, a: Action)
    requires SameControl(s, t) && q == p.(install := q.install)
    ensures Enabled(p, s, a) == Enabled(q, t, a)
    ensures Enabled(p, s, a) ==> Safe(p, s, a) == Safe(q, t, a)
  {
    ControlEnables(p, q, s, t, a);
    forall k | 0 <= k < |s.lines|
      ensures SameLine(s.lines[k], t.lines[k])
    {
    }
  }

  lemma ControlKeepsLines(p: Params, q: Params, s: State, t: State, a: Action)
    requires SameControl(s, t) && q == p.(install := q.install)
    requires Enabled(p, s, a) && Safe(p, s, a) && Enabled(q, t, a) && Safe(q, t, a)
    ensures SameLines(Apply(p, s, a), Apply(q, t, a))
  {
    var s', t' := Apply(p, s, a), Apply(q, t, a);
    assert |s'.lines| == |s.lines| && |t'.lines| == |t.lines|;
    forall k: nat | k < |s.lines|
      ensures SameLine(s'.lines[k], t'.lines[k])
    {
      ControlKeepsLine(p, q, s, t, a, k);
    }
  }

  lemma ControlKeepsLine(p: Params, q: Params, s: State, t: State, a: Action, k: nat)
    requires SameControl(s, t) && q == p.(install := q.install)
    requires Enabled(p, s, a) && Safe(p, s, a) && Enabled(q, t, a) && Safe(q, t, a)
    requires k < |s.lines| && |Apply(p, s, a).lines| == |s.lines| && |Apply(q, t, a).lines| == |s.lines|
    ensures SameLine(Apply(p, s, a).lines[k], Apply(q, t, a).lines[k])
  {
    assert SameLine(s.lines[k], t.lines[k]);
    if a.Forward? || a.Answer? || a.ReadFinish? || a.LoadFill? {
      ReadKeepsLine(p, q, s, t, a, k);
    } else if a.StoreHit? || a.Invalidate? || a.WriteFinish? || a.StoreFill? {
      WriteKeepsLine(p, q, s, t, a, k);
    }
  }

  lemma ReadKeepsLine(p: Params, q: Params, s: State, t: State, a: Action, k: nat)
    requires SameControl(s, t) && q == p.(install := q.install)
    requires a.Forward? || a.Answer? || a.ReadFinish? || a.LoadFill?
    requires Enabled(p, s, a) && Safe(p, s, a) && Enabled(q, t, a) && Safe(q, t, a)
    requires k < |s.lines| && |Apply(p, s, a).lines| == |s.lines| && |Apply(q, t, a).lines| == |s.lines|
    ensures SameLine(Apply(p, s, a).lines[k], Apply(q, t, a).lines[k])
  {
    assert SameLine(s.lines[k], t.lines[k]);
  }

  lemma WriteKeepsLine(p: Params, q: Params, s: State, t: State, a: Action, k: nat)
    requires SameControl(s, t) && q == p.(install := q.install)
    requires a.StoreHit? || a.Invalidate? || a.WriteFinish? || a.StoreFill?
    requires Enabled(p, s, a) && Safe(p, s, a) && Enabled(q, t, a) && Safe(q, t, a)
    requires k < |s.lines| && |Apply(p, s, a).lines| == |s.lines| && |Apply(q, t, a).lines| == |s.lines|
    ensures SameLine(Apply(p, s, a).lines[k], Apply(q, t, a).lines[k])
  {
    assert SameLine(s.lines[k], t.lines[k]);
  }

  lemma ControlKeepsEntry(p: Params, q: Params, s: State, t: State, a: Action)
    requires SameControl(s, t) && q == p.(install := q.install)
    requires Enabled(p, s, a) && Safe(p, s, a) && Enabled(q, t, a) && Safe(q, t, a)
    ensures SameEntry(Apply(p, s, a), Apply(q, t, a))
  {
    if a.Invalidate? {
      assert SameLine(s.lines[a.k], t.lines[a.k]);
    } else if a.ReadLock? || a.Answer? || a.ReadFinish? {
      ReadKeepsEntry(p, q, s, t, a);
    } else if a.EvictProcess? {
      assert SameLine(s.lines[a.i], t.lines[a.i]);
    }
  }

  lemma ReadKeepsEntry(p: Params, q: Params, s: State, t: State, a: Action)
    requires SameControl(s, t) && q == p.(install := q.install) && (a.ReadLock? || a.Answer? || a.ReadFinish?)
    requires Enabled(p, s, a) && Safe(p, s, a) && Enabled(q, t, a) && Safe(q, t, a)
    ensures SameEntry(Apply(p, s, a), Apply(q, t, a))
  {
    if a.Answer? {
      assert SameLine(s.lines[a.k], t.lines[a.k]);
    }
  }

  lemma ControlKeeps(p: Params, q: Params, s: State, t: State, a: Action)
    requires SameControl(s, t) && q == p.(install := q.install)
    requires Enabled(p, s, a) && Safe(p, s, a) && Enabled(q, t, a) && Safe(q, t, a)
    ensures SameControl(Apply(p, s, a), Apply(q, t, a))
  {
    ControlKeepsLines(p, q, s, t, a);
    ControlKeepsEntry(p, q, s, t, a);
  }

  /** Every run has a twin in which caches keep their own copies. */
  lemma {:induction false} TwinRun(p: Params, s: State, actions: seq<Action>, t: State, s': State) returns (t': State)
    requires SameControl(s, s') && Leads(p, s, actions, t)
    ensures SameControl(t, t') && Leads(p.(install := false), s', actions, t')
    decreases |actions|
  {
    var q := p.(install := false);
    t' := s';
    if actions != [] {
      var a := actions[0];
      ControlDecides(p, q, s, s', a);
      ControlKeeps(p, q, s, s', a);
      t' := TwinRun(p, Apply(p, s, a), actions[1..], t, Apply(q, s', a));
    }
  }

  lemma Twin(p: Params, s: State) returns (s': State)
    requires Reachable(p, s)
    ensures SameControl(s, s') && Inv(p.(install := false), s')
  {
    var q := p.(install := false);
    var memory, actions :| |memory| == p.words && Leads(p, Initial(p, memory), actions, s);
    s' := TwinRun(p, Initial(p, memory), actions, s, Initial(p, memory));
    assert Initial(p, memory) == Initial(q, memory);
    assert Reachable(q, s');
    ReachableInv(q, s');
  }

  // ---- The main results ----

  /** What a cache may read or write right now: its lock is free. */
  predicate Accessible(s: State, k: nat) {
    k < |s.lines| && s.lines[k].lock == Free && s.lines[k].state != Invalid
  }

  /** In every reachable state, beside an accessible copy in state M or E there is no
      other accessible copy, and beside one in state O there are only copies in state S. */
  lemma SingleWriter(p: Params, s: State, j: nat, k: nat)
    requires Reachable(p, s) && Accessible(s, j) && Accessible(s, k) && j != k
    ensures s.lines[j].state !in {Modified, Exclusive}
    ensures s.lines[j].state == Owned ==> s.lines[k].state == CacheState.Shared
  {
    var s' := Twin(p, s);
    assert SameLine(s.lines[j], s'.lines[j]) && SameLine(s.lines[k], s'.lines[k]);
    assert Compatible(Holds(s', j), Holds(s', k));
  }

  /** While the entry is unlocked, its sharers are exactly the caches that hold the block
      and its owner exactly the one in state M, O or E, where replies under way count as
      received and acknowledged evictions as done. In particular a free line holds the
      block exactly when its cache is a sharer, and no cache has a block without entry. */
  lemma DirectoryIsExact(p: Params, s: State, k: nat)
    requires Reachable(p, s) && k < |s.lines| && s.entry.lock == Unlocked
    ensures k in s.entry.sharers <==> Holds(s, k) != Invalid
    ensures s.entry.owner == k <==> Owning(Holds(s, k))
    ensures s.lines[k].lock == Free ==> Holds(s, k) == s.lines[k].state
    ensures s.entry.state == Invalid ==> Holds(s, k) == Invalid
  {
    var s' := Twin(p, s);
    assert SameLine(s.lines[k], s'.lines[k]);
    assert Known(s', k) && OwnerIs(s', k);
  }

  /** No assertion of a handler can fail: in every reachable state, whatever can happen
      next is safe. */
  lemma HandlersAreSafe(p: Params, s: State, a: Action)
    requires Reachable(p, s) && Enabled(p, s, a)
    ensures Safe(p, s, a)
  {
    var s' := Twin(p, s);
    var q := p.(install := false);
    ControlDecides(p, q, s, s', a);
    StepKeeps(q, s', a);
  }

  /** Every copy that counts is what the last store left, and so is memory unless a cache
      is in state M or O or sends its copy back. */
  predicate DataOk(s: State) {
    && (forall k :: 0 <= k < |s.lines| && Live(s.lines[k]) ==> s.lines[k].data == s.latest)
    && MemoryOk(s)
  }

  /** With faithful parameters, this holds in every reachable state. */
  lemma DataIsLatest(p: Params, s: State)
    requires Reachable(p, s) && Faithful(p)
    ensures DataOk(s)
  {
    ReachableInv(p, s);
    LinesAreLatest(p, s);
  }

  lemma LinesAreLatest(p: Params, s: State)
    requires Inv(p, s)
    ensures DataOk(s)
  {
    forall k | 0 <= k < |s.lines| && Live(s.lines[k])
      ensures s.lines[k].data == s.latest
    {
      assert LineOk(p, s, k);
    }
  }

  /** Every write request of the run is completed with a reply that serves. */
  ghost predicate Served(p: Params, s: State, actions: seq<Action>)
    decreases |actions|
  {
    actions != [] && Enabled(p, s, actions[0]) && Safe(p, s, actions[0]) ==>
      && (actions[0].WriteFinish? ==> ReplyServes(p, s))
      && Served(p, Apply(p, s, actions[0]), actions[1..])
  }

  lemma {:induction false} ServedKeeps(p: Params, s: State, actions: seq<Action>, t: State)
    requires Inv(p, s) && Leads(p, s, actions, t) && Served(p, s, actions)
    ensures Inv(p, t)
    decreases |actions|
  {
    if actions != [] {
      StepKeeps(p, s, actions[0]);
      ServedKeeps(p, Apply(p, s, actions[0]), actions[1..], t);
    }
  }

  /** Whatever the parameters, the data is right after every run whose write requests
      are all completed with replies that serve. */
  lemma ServedRunIsLatest(p: Params, memory: Block, actions: seq<Action>, s: State)
    requires ValidParams(p) && |memory| == p.words && Leads(p, Initial(p, memory), actions, s)
    requires Served(p, Initial(p, memory), actions)
    ensures DataOk(s)
  {
    InitialHolds(p, memory);
    ServedKeeps(p, Initial(p, memory), actions, s);
    LinesAreLatest(p, s);
  }

  // ---- The reply to an upgrade from state O ----

  lemma {:induction false} LeadsOn(p: Params, s: State, actions: seq<Action>, t: State, a: Action)
    requires Leads(p, s, actions, t) && Enabled(p, t, a) && Safe(p, t, a)
    ensures Leads(p, s, actions + [a], Apply(p, t, a))
    decreases |actions|
  {
    if actions == [] {
      assert [a][1..] == [];
    } else {
      LeadsOn(p, Apply(p, s, actions[0]), actions[1..], t, a);
      assert (actions + [a])[1..] == actions[1..] + [a];
    }
  }

  lemma Next(p: Params, s: State, a: Action)
    requires Reachable(p, s) && Enabled(p, s, a)
    ensures Safe(p, s, a) && Reachable(p, Apply(p, s, a))
  {
    HandlersAreSafe(p, s, a);
    var memory, actions :| |memory| == p.words && Leads(p, Initial(p, memory), actions, s);
    LeadsOn(p, Initial(p, memory), actions, s, a);
  }

  lemma InitialReachable(p: Params, memory: Block)
    requires ValidParams(p) && |memory| == p.words
    ensures Reachable(p, Initial(p, memory))
  {
    assert Leads(p, Initial(p, memory), [], Initial(p, memory));
  }

  /** Cache 0 stores into word 0 and holds the block in state M; memory is out of date. */
  lemma OneRequest(p: Params) returns (s: State)
    requires ValidParams(p) && p.caches >= 2 && p.words >= 2
    ensures Reachable(p, s) && |s.lines| == p.caches && s.memory == Zeros(p.words) && s.latest == Zeros(p.words)
    ensures s.lines[0] == Line(Invalid, Zeros(p.words), Storing(0, 1))
    ensures s.lines[1].state == Invalid && s.lines[1].lock == Free
    ensures s.entry == Entry(Exclusive, {}, NONE, Writing(0, {}, map[]))
  {
    s := Initial(p, Zeros(p.words));
    InitialReachable(p, Zeros(p.words));
    Next(p, s, StoreMiss(0, 0, 1));
    s := Apply(p, s, StoreMiss(0, 0, 1));
    assert Others(s.entry, 0) == {};
    Next(p, s, WriteLock(0));
    s := Apply(p, s, WriteLock(0));
  }

  lemma OneStore(p: Params) returns (s: State)
    requires ValidParams(p) && p.caches >= 2 && p.words >= 2
    ensures Reachable(p, s) && |s.lines| == p.caches
    ensures s.memory == Zeros(p.words) && s.latest == Zeros(p.words)[0 := 1]
    ensures s.lines[0] == Line(Modified, s.latest, Free) && s.lines[1].state == Invalid && s.lines[1].lock == Free
    ensures s.entry == Entry(Exclusive, {0}, 0, Unlocked)
  {
    s := OneRequest(p);
    Next(p, s, WriteFinish);
    s := Apply(p, s, WriteFinish);
    Next(p, s, StoreFill(0));
    s := Apply(p, s, StoreFill(0));
  }

  /** Cache 1 requests the block, and the directory asks cache 0 for it. */
  lemma ThenRequest(p: Params) returns (s: State)
    requires ValidParams(p) && p.caches >= 2 && p.words >= 2
    ensures Reachable(p, s) && |s.lines| == p.caches
    ensures s.memory == Zeros(p.words) && s.latest == Zeros(p.words)[0 := 1]
    ensures s.lines[0] == Line(Modified, s.latest, Free)
    ensures s.lines[1].state == Invalid && s.lines[1].lock == Loading(None)
    ensures s.entry == Entry(Exclusive, {0}, 0, Reading(1, Asked(0), p.bytes + 8))
  {
    s := OneStore(p);
    Next(p, s, LoadMiss(1));
    s := Apply(p, s, LoadMiss(1));
    Next(p, s, ReadLock(1));
    s := Apply(p, s, ReadLock(1));
  }

  /** Cache 0 forwards the block, and goes to state O. */
  lemma ThenForward(p: Params) returns (s: State)
    requires ValidParams(p) && p.caches >= 2 && p.words >= 2
    ensures Reachable(p, s) && |s.lines| == p.caches
    ensures s.memory == Zeros(p.words) && s.latest == Zeros(p.words)[0 := 1]
    ensures s.lines[0] == Line(Owned, s.latest, Free)
    ensures s.lines[1].state == Invalid && s.lines[1].lock == Loading(Some(s.latest))
    ensures s.entry == Entry(Exclusive, {0}, 0, Reading(1, Answered(0, true), 8))
  {
    s := ThenRequest(p);
    Next(p, s, Forward(0));
    s := Apply(p, s, Forward(0));
    Next(p, s, Answer(0));
    s := Apply(p, s, Answer(0));
  }

  /** Cache 1 loads, and cache 0 is left in state O. */
  lemma ThenLoad(p: Params) returns (s: State)
    requires ValidParams(p) && p.caches >= 2 && p.words >= 2
    ensures Reachable(p, s) && |s.lines| == p.caches
    ensures s.memory == Zeros(p.words) && s.latest == Zeros(p.words)[0 := 1]
    ensures s.lines[0] == Line(Owned, s.latest, Free) && s.lines[1] == Line(CacheState.Shared, s.latest, Free)
    ensures s.entry == Entry(Exclusive, {0, 1}, 0, Unlocked)
  {
    s := ThenForward(p);
    Next(p, s, ReadFinish);
    s := Apply(p, s, ReadFinish);
    Next(p, s, LoadFill(1));
    s := Apply(p, s, LoadFill(1));
  }

  /** Cache 0 requests to write again, and cache 1 gives up its copy. */
  lemma ThenUpgrade(p: Params) returns (s: State)
    requires ValidParams(p) && p.caches >= 2 && p.words >= 2
    ensures Reachable(p, s) && |s.lines| == p.caches
    ensures s.memory == Zeros(p.words) && s.latest == Zeros(p.words)[0 := 1]
    ensures s.lines[0] == Line(Owned, s.latest, Storing(1, 1))
    ensures s.entry == Entry(Exclusive, {0}, 0, Writing(0, {}, map[1 := Reply(8, s.latest)]))
  {
    s := ThenLoad(p);
    Next(p, s, StoreMiss(0, 1, 1));
    s := Apply(p, s, StoreMiss(0, 1, 1));
    assert Others(s.entry, 0) == {1} && s.entry.sharers - {1} == {0};
    Next(p, s, WriteLock(0));
    s := Apply(p, s, WriteLock(0));
    assert s.entry == Entry(Exclusive, {0}, 0, Writing(0, {1}, map[]));
    Next(p, s, Invalidate(1));
    assert {1} - {1} == {};
    s := Apply(p, s, Invalidate(1));
  }

  /** The reply of cache 1 has arrived. */
  lemma ThenAccept(p: Params) returns (s: State)
    requires ValidParams(p) && p.caches >= 2 && p.words >= 2
    ensures Reachable(p, s) && |s.lines| == p.caches
    ensures s.memory == Zeros(p.words) && s.latest == Zeros(p.words)[0 := 1]
    ensures s.lines[0] == Line(Owned, s.latest, Storing(1, 1))
    ensures s.entry == Entry(Exclusive, {0}, 0, Writing(0, {}, map[]))
  {
    s := ThenUpgrade(p);
    Next(p, s, InvalidateFinish(1));
    s := Apply(p, s, InvalidateFinish(1));
  }

  /** The directory replies to cache 0 with the block of memory. */
  lemma ThenReply(p: Params) returns (s: State)
    requires ValidParams(p) && p.caches >= 2 && p.words >= 2
    ensures Reachable(p, s) && |s.lines| == p.caches
    ensures s.memory == Zeros(p.words) && s.latest == Zeros(p.words)[0 := 1]
    ensures s.lines[0] == Line(Owned, s.latest, Granted(1, 1, Reply(p.bytes + 8, s.memory)))
  {
    s := ThenAccept(p);
    Next(p, s, WriteFinish);
    s := Apply(p, s, WriteFinish);
  }

  /** Cache 0 stores into word 1. The reply to its write request carries the block from
      memory, where word 0 is out of date; a cache that installs it loses its first
      store. */
  lemma StaleReply(p: Params) returns (s: State)
    requires ValidParams(p) && p.caches >= 2 && p.words >= 2 && p.install
    ensures Reachable(p, s) && !DataOk(s)
  {
    s := ThenReply(p);
    Next(p, s, StoreFill(0));
    s := Apply(p, s, StoreFill(0));
    assert s.lines[0].data[0] == 0 && s.latest[0] == 1;
    assert Live(s.lines[0]);
  }

  /** The data stays right in every run exactly when a cache that still holds the block
      keeps its own copy, a store overwrites the whole block, or there is one cache. */
  lemma DataIsLatestExactly(p: Params)
    requires ValidParams(p)
    ensures (forall s :: Reachable(p, s) ==> DataOk(s)) <==> Faithful(p)
  {
    if Faithful(p) {
      forall s | Reachable(p, s)
        ensures DataOk(s)
      {
        DataIsLatest(p, s);
      }
    } else {
      var s := StaleReply(p);
    }
  }

  /** With faithful parameters, whatever a load returns is what the last store left. */
  lemma LoadsReturnLatest(p: Params, s: State, i: nat)
    requires Reachable(p, s) && Faithful(p) && i < |s.lines|
    ensures Enabled(p, s, LoadHit(i)) ==> s.lines[i].data == s.latest
    ensures Enabled(p, s, LoadFill(i)) ==> FillLoad(s, i).lines[i].data == s.latest
  {
    ReachableInv(p, s);
    assert LineOk(p, s, i);
  }
}
