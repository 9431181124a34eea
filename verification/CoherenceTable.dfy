/** The protocol as a table: what each step does to who holds the block and how, to the
    locks, to the requests under way, to memory and to the latest data. */
module CoherenceTable {
  import opened Coherence
  import opened CoherenceInvariant
  import opened CoherenceSteps
  import opened CoherenceRuns

  // ---- Who holds the block ----

  /** Cache `i` goes to a state, and everybody else stays. */
  ghost predicate Goes(s: State, t: State, i: int, state: CacheState) {
    && |t.lines| == |s.lines| && 0 <= i < |s.lines|
    && Holds(t, i) == state
    && forall k: nat :: k < |s.lines| && k != i ==> Holds(t, k) == Holds(s, k)
  }

  ghost predicate Stay(s: State, t: State) {
    |t.lines| == |s.lines| && forall k: nat :: k < |s.lines| ==> Holds(t, k) == Holds(s, k)
  }

  ghost predicate Nobody(s: State, i: int) {
    forall k: nat :: k < |s.lines| && k != i ==> Holds(s, k) == Invalid
  }

  function Requester(s: State): int {
    if s.entry.lock.Reading? || s.entry.lock.Writing? then s.entry.lock.cache else -1
  }

  /** An owner asked for the block by a reader keeps the responsibility for it exactly if
      it is newer than memory. A reader is alone in E or one of several in S. A writer is
      in M, and whoever gives the block up or is evicted has none. */
  ghost predicate HoldStep(s: State, a: Action, t: State) {
    match a
    case Answer(k) =>
      k < |s.lines| && Goes(s, t, k, if Holds(s, k) in {Modified, Owned} then Owned else CacheState.Shared)
    case ReadFinish => Goes(s, t, Requester(s), if Nobody(s, Requester(s)) then Exclusive else CacheState.Shared)
    case StoreHit(i, _, _) => Goes(s, t, i, Modified)
    case Invalidate(k) => Goes(s, t, k, Invalid)
    case WriteFinish => Goes(s, t, Requester(s), Modified)
    case EvictProcess(i) => Goes(s, t, i, Invalid)
    case _ => Stay(s, t)
  }

  /** Which lines a step locks and unlocks. */
  predicate Takes(a: Action, k: nat) {
    match a
    case LoadMiss(i) => k == i
    case StoreMiss(i, _, _) => k == i
    case Evict(i) => k == i
    case Forward(i) => k == i
    case _ => false
  }

  predicate Frees(a: Action, k: nat) {
    match a
    case ReadRefused(i) => k == i
    case WriteRefused(i) => k == i
    case EvictRefused(i) => k == i
    case LoadFill(i) => k == i
    case StoreFill(i) => k == i
    case EvictFinish(i) => k == i
    case Answer(i) => k == i
    case _ => false
  }

  ghost predicate LockStep(s: State, a: Action, t: State) {
    && |t.lines| == |s.lines|
    && (forall k: nat :: k < |s.lines| ==>
          (t.lines[k].lock == Free <==> Frees(a, k) || (s.lines[k].lock == Free && !Takes(a, k))))
    && (t.entry.lock == Unlocked <==>
          || a.ReadFinish? || a.WriteFinish? || a.EntryEvicted?
          || (s.entry.lock == Unlocked && !a.ReadLock? && !a.WriteLock? && !a.EvictEntry?))
  }

  lemma HoldsExactly(p: Params, s: State, a: Action)
    requires Inv(p, s) && Enabled(p, s, a) && Safe(p, s, a)
    ensures HoldStep(s, a, Apply(p, s, a))
  {
    if a.ReadFinish? {
      ReaderHolds(p, s);
    } else if a.Answer? || a.StoreHit? || a.Invalidate? || a.WriteFinish? || a.EvictProcess? {
      ChangeHolds(p, s, a);
    } else if a.StoreFill? || a.LoadFill? || a.EvictFinish? {
      ArrivalHolds(p, s, a);
    }
  }

  lemma ChangeHolds(p: Params, s: State, a: Action)
    requires Inv(p, s) && Enabled(p, s, a) && Safe(p, s, a)
    requires a.Answer? || a.StoreHit? || a.Invalidate? || a.WriteFinish? || a.EvictProcess?
    ensures HoldStep(s, a, Apply(p, s, a))
  {
    if a.Answer? {
      assert LineOk(p, s, a.k);
    } else if a.WriteFinish? {
      assert LineOk(p, s, s.entry.lock.cache);
    }
  }

  lemma ArrivalHolds(p: Params, s: State, a: Action)
    requires Inv(p, s) && Enabled(p, s, a) && Safe(p, s, a) && (a.StoreFill? || a.LoadFill? || a.EvictFinish?)
    ensures HoldStep(s, a, Apply(p, s, a))
  {
  }

  lemma ReaderHolds(p: Params, s: State)
    requires Inv(p, s) && Enabled(p, s, ReadFinish) && Safe(p, s, ReadFinish)
    ensures HoldStep(s, ReadFinish, FinishRead(s))
  {
    var i := s.entry.lock.cache;
    AloneOrShared(s.entry.sharers, i);
    forall k: nat | k < |s.lines|
      ensures Holds(s, k) != Invalid <==> k in s.entry.sharers
    {
      assert Known(s, k);
    }
    assert LineOk(p, s, i);
  }

  lemma LocksExactly(p: Params, s: State, a: Action)
    requires Inv(p, s) && Enabled(p, s, a) && Safe(p, s, a)
    ensures LockStep(s, a, Apply(p, s, a))
  {
    if a.Forward? || a.ReadFinish? || a.WriteFinish? {
      GrantLocks(p, s, a);
    }
  }

  lemma GrantLocks(p: Params, s: State, a: Action)
    requires Inv(p, s) && Enabled(p, s, a) && Safe(p, s, a) && (a.Forward? || a.ReadFinish? || a.WriteFinish?)
    ensures LockStep(s, a, Apply(p, s, a))
  {
    assert LineOk(p, s, s.entry.lock.cache);
  }

  // ---- Who is asked ----

  /** A read request is answered with data exactly if no peer has sent them. A read
      request that locks the entry asks exactly the owner, if another cache is
      one; a write request asks exactly the other holders, and an eviction of the entry
      all holders. Whoever gives the block up is asked no more, and replies with data
      exactly if it was in state M or O. */
  ghost predicate AskStep(s: State, a: Action, t: State) {
    match a
    case ReadLock(i) =>
      && t.entry.lock.Reading? && t.entry.lock.cache == i
      && forall k: nat :: k < |s.lines| ==> (t.entry.lock.peer == Asked(k) <==> k != i && Owning(Holds(s, k)))
    case WriteLock(i) =>
      && t.entry.lock.Writing? && t.entry.lock.cache == i && t.entry.lock.replies == map[]
      && forall k: nat :: k < |s.lines| ==> (k in t.entry.lock.pending <==> k != i && Holds(s, k) != Invalid)
    case ReadFinish =>
      && 0 <= Requester(s) < |s.lines| == |t.lines| && s.entry.lock.Reading? && t.lines[Requester(s)].lock.Loaded?
      && (t.lines[Requester(s)].lock.reply.size > 8 <==> s.entry.lock.peer == NoPeer)
    case EvictEntry =>
      && t.entry.lock.Clearing? && t.entry.lock.replies == map[]
      && forall k: nat :: k < |s.lines| ==> (k in t.entry.lock.pending <==> Holds(s, k) != Invalid)
    case Invalidate(k) =>
      && Waiting(s.entry.lock) && Waiting(t.entry.lock) && k < |s.lines|
      && t.entry.lock.pending == s.entry.lock.pending - {k}
      && t.entry.lock.replies.Keys == s.entry.lock.replies.Keys + {k}
      && (t.entry.lock.replies[k].size > 8 <==> Holds(s, k) in {Modified, Owned})
      && forall j :: j in s.entry.lock.replies && j != k ==> t.entry.lock.replies[j].size == s.entry.lock.replies[j].size
    case InvalidateFinish(k) =>
      && Waiting(s.entry.lock) && Waiting(t.entry.lock)
      && t.entry.lock.pending == s.entry.lock.pending
      && t.entry.lock.replies.Keys == s.entry.lock.replies.Keys - {k}
      && forall j :: j in t.entry.lock.replies ==> t.entry.lock.replies[j].size == s.entry.lock.replies[j].size
    case _ => true
  }

  lemma AsksExactly(p: Params, s: State, a: Action)
    requires Inv(p, s) && Enabled(p, s, a) && Safe(p, s, a)
    ensures AskStep(s, a, Apply(p, s, a))
  {
    if a.ReadLock? {
      ReadAsks(p, s, a.i);
    } else if a.ReadFinish? {
      assert LineOk(p, s, s.entry.lock.cache);
    } else if a.WriteLock? || a.EvictEntry? {
      WriteAsks(p, s, a);
    }
  }

  lemma ReadAsks(p: Params, s: State, i: nat)
    requires Inv(p, s) && Enabled(p, s, ReadLock(i)) && Safe(p, s, ReadLock(i))
    ensures AskStep(s, ReadLock(i), LockForRead(p, s, i))
  {
    forall k: nat | k < |s.lines|
      ensures Owning(Holds(s, k)) <==> s.entry.owner == k
    {
      assert OwnerIs(s, k);
    }
  }

  lemma WriteAsks(p: Params, s: State, a: Action)
    requires Inv(p, s) && Enabled(p, s, a) && Safe(p, s, a) && (a.WriteLock? || a.EvictEntry?)
    ensures AskStep(s, a, Apply(p, s, a))
  {
    forall k: nat | k < |s.lines|
      ensures Holds(s, k) != Invalid <==> k in s.entry.sharers
    {
      assert Known(s, k);
    }
  }

  // ---- Refused requests ----

  /** A request that the directory refuses leaves no trace, and the access starts afresh. */
  lemma RefusedIsUndone(p: Params, s: State, i: nat, word: nat, value: int)
    requires i < |s.lines| && s.entry.lock != Unlocked && !InService(s, i)
    ensures Enabled(p, s, LoadMiss(i)) ==>
      var t := Apply(p, s, LoadMiss(i));
      Enabled(p, t, ReadRefused(i)) && Apply(p, t, ReadRefused(i)) == s
    ensures Enabled(p, s, StoreMiss(i, word, value)) ==>
      var t := Apply(p, s, StoreMiss(i, word, value));
      Enabled(p, t, WriteRefused(i)) && Apply(p, t, WriteRefused(i)) == s
    ensures Enabled(p, s, Evict(i)) ==>
      var t := Apply(p, s, Evict(i));
      Enabled(p, t, EvictRefused(i)) && Apply(p, t, EvictRefused(i)) == s
  {
    var lines := s.lines;
    assert lines[i := lines[i].(lock := Loading(None))][i := lines[i].(lock := Free)] == lines[i := lines[i].(lock := Free)];
    assert lines[i].lock == Free ==> lines[i := lines[i].(lock := Free)] == lines;
  }

  // ---- Data ----

  /** Only stores change the latest data, by one word; memory takes the latest from an
      evicted holder in M or O, or from a reply with data. */
  ghost predicate DataStep(s: State, a: Action, t: State) {
    && (match a
        case StoreHit(_, word, value) => word < |s.latest| && t.latest == s.latest[word := value]
        case StoreFill(i) =>
          && i < |s.lines| && s.lines[i].lock.Granted? && s.lines[i].lock.word < |s.latest|
          && t.latest == s.latest[s.lines[i].lock.word := s.lines[i].lock.value]
        case _ => t.latest == s.latest)
    && (match a
        case EvictProcess(i) => i < |s.lines| && t.memory == if Holds(s, i) in {Modified, Owned} then s.latest else s.memory
        case InvalidateFinish(k) =>
          && Waiting(s.entry.lock) && k in s.entry.lock.replies
          && t.memory == if s.entry.lock.replies[k].size > 8 then s.latest else s.memory
        case _ => t.memory == s.memory)
  }

  lemma DataExactly(p: Params, s: State, a: Action)
    requires Inv(p, s) && Enabled(p, s, a) && Safe(p, s, a)
    ensures DataStep(s, a, Apply(p, s, a))
  {
    if a.EvictProcess? {
      assert LineOk(p, s, a.i);
    } else if a.StoreFill? {
      assert LineOk(p, s, a.i);
    } else if a.InvalidateFinish? {
      assert ReplyOk(s, a.k);
    }
  }

  // ---- In every run ----

  /** Memory's own state: a block gets an entry in E with its first request, which a
      modified copy that is evicted turns into M, and a write request into E again. */
  ghost predicate EntryStep(s: State, a: Action, t: State) {
    match a
    case ReadLock(_) => t.entry.state == if s.entry.state == Invalid then Exclusive else s.entry.state
    case WriteLock(_) => t.entry.state == if s.entry.state == Invalid then Exclusive else s.entry.state
    case WriteFinish => t.entry.state == Exclusive
    case EvictProcess(i) =>
      i < |s.lines| && t.entry.state == if Holds(s, i) in {Modified, Owned} then Modified else s.entry.state
    case EntryEvicted => t.entry.state == Invalid
    case _ => t.entry.state == s.entry.state
  }

  lemma EntryExactly(p: Params, s: State, a: Action)
    requires Inv(p, s) && Enabled(p, s, a) && Safe(p, s, a)
    ensures EntryStep(s, a, Apply(p, s, a))
  {
  }

  lemma SameHold(s: State, t: State)
    requires SameControl(s, t)
    ensures |t.lines| == |s.lines| && forall k: nat :: k < |s.lines| ==> Holds(t, k) == Holds(s, k)
  {
    forall k: nat | k < |s.lines|
      ensures Holds(t, k) == Holds(s, k)
    {
      assert SameLine(s.lines[k], t.lines[k]);
    }
  }

  /** The table holds for every step from every reachable state, whatever the parameters. */
  lemma StepsFollowTable(p: Params, s: State, a: Action)
    requires Reachable(p, s) && Enabled(p, s, a)
    ensures Safe(p, s, a)
    ensures HoldStep(s, a, Apply(p, s, a)) && LockStep(s, a, Apply(p, s, a)) && AskStep(s, a, Apply(p, s, a))
    ensures EntryStep(s, a, Apply(p, s, a))
    ensures Faithful(p) ==> DataStep(s, a, Apply(p, s, a))
  {
    HandlersAreSafe(p, s, a);
    var s' := Twin(p, s);
    var q := p.(install := false);
    ControlDecides(p, q, s, s', a);
    ControlKeeps(p, q, s, s', a);
    HoldsExactly(q, s', a);
    LocksExactly(q, s', a);
    AsksExactly(q, s', a);
    EntryExactly(q, s', a);
    TableOfTwin(s, s', Apply(p, s, a), Apply(q, s', a), a);
    if Faithful(p) {
      ReachableInv(p, s);
      DataExactly(p, s, a);
    }
  }

  lemma TableOfTwin(s: State, s': State, t: State, t': State, a: Action)
    requires SameControl(s, s') && SameControl(t, t')
    requires HoldStep(s', a, t') && LockStep(s', a, t') && AskStep(s', a, t') && EntryStep(s', a, t')
    ensures HoldStep(s, a, t) && LockStep(s, a, t) && AskStep(s, a, t) && EntryStep(s, a, t)
  {
    SameHold(s, s');
    SameHold(t, t');
    LockOfTwin(s, s', t, t', a);
    AskOfTwin(s, s', t, t', a);
  }

  lemma LockOfTwin(s: State, s': State, t: State, t': State, a: Action)
    requires SameControl(s, s') && SameControl(t, t') && LockStep(s', a, t')
    ensures LockStep(s, a, t)
  {
    forall k: nat | k < |s.lines|
      ensures t.lines[k].lock == Free <==> Frees(a, k) || (s.lines[k].lock == Free && !Takes(a, k))
    {
      assert SameLine(s.lines[k], s'.lines[k]) && SameLine(t.lines[k], t'.lines[k]);
    }
  }

  lemma AskOfTwin(s: State, s': State, t: State, t': State, a: Action)
    requires SameControl(s, s') && SameControl(t, t') && AskStep(s', a, t')
    ensures AskStep(s, a, t)
  {
    SameHold(s, s');
    if a.ReadFinish? {
      assert SameLine(t.lines[Requester(s)], t'.lines[Requester(s)]);
    }
  }

  // ---- Runs without stores ----

  predicate IsStore(a: Action) {
    a.StoreHit? || a.StoreMiss?
  }

  /** No store is under way, and none has been. */
  ghost predicate Clean(s: State) {
    && !s.entry.lock.Writing?
    && (forall k: nat :: k < |s.lines| ==> !s.lines[k].lock.Storing? && !s.lines[k].lock.Granted?)
    && (forall k: nat :: k < |s.lines| ==> Holds(s, k) !in {Modified, Owned})
    && (forall k :: k in Replies(s.entry.lock) ==> !DirtyReply(s, k))
  }

  lemma CleanStep(p: Params, s: State, a: Action)
    requires Inv(p, s) && Clean(s) && Enabled(p, s, a) && !IsStore(a)
    ensures Safe(p, s, a) && Inv(p, Apply(p, s, a)) && Clean(Apply(p, s, a))
    ensures Apply(p, s, a).memory == s.memory && Apply(p, s, a).latest == s.latest
  {
    StepKeeps(p, s, a);
    CleanHolds(p, s, a);
    DataExactly(p, s, a);
    CleanReplies(p, s, a);
    CleanLocks(p, s, a);
  }

  lemma CleanHolds(p: Params, s: State, a: Action)
    requires Inv(p, s) && Clean(s) && Enabled(p, s, a) && Safe(p, s, a) && !IsStore(a)
    ensures |Apply(p, s, a).lines| == |s.lines|
    ensures forall k: nat :: k < |s.lines| ==> Holds(Apply(p, s, a), k) !in {Modified, Owned}
  {
    HoldsExactly(p, s, a);
  }

  lemma CleanLocks(p: Params, s: State, a: Action)
    requires Inv(p, s) && Clean(s) && Enabled(p, s, a) && Safe(p, s, a) && !IsStore(a)
    ensures var t := Apply(p, s, a);
      && |t.lines| == |s.lines| && !t.entry.lock.Writing?
      && forall k: nat :: k < |t.lines| ==> !t.lines[k].lock.Storing? && !t.lines[k].lock.Granted?
  {
  }

  lemma CleanReplies(p: Params, s: State, a: Action)
    requires Inv(p, s) && Clean(s) && Enabled(p, s, a) && Safe(p, s, a) && !IsStore(a)
    ensures forall k :: k in Replies(Apply(p, s, a).entry.lock) ==> !DirtyReply(Apply(p, s, a), k)
  {
    if a.Invalidate? || a.InvalidateFinish? {
      AsksExactly(p, s, a);
      assert forall k :: k in Replies(s.entry.lock) ==> !DirtyReply(s, k);
    }
  }

  lemma {:induction false} CleanRun(p: Params, s: State, actions: seq<Action>, t: State)
    requires Inv(p, s) && Clean(s) && Leads(p, s, actions, t)
    requires forall i :: 0 <= i < |actions| ==> !IsStore(actions[i])
    ensures Clean(t) && t.memory == s.memory && t.latest == s.latest
    decreases |actions|
  {
    if actions != [] {
      CleanStep(p, s, actions[0]);
      CleanRun(p, Apply(p, s, actions[0]), actions[1..], t);
    }
  }

  /** In a run without stores no cache ever holds the block in state M or O, and memory
      never changes. */
  lemma ReadsOnlyStayClean(p: Params, memory: Block, actions: seq<Action>, t: State, k: nat)
    requires ValidParams(p) && |memory| == p.words && Leads(p, Initial(p, memory), actions, t)
    requires forall i :: 0 <= i < |actions| ==> !IsStore(actions[i])
    requires k < |t.lines|
    ensures Holds(t, k) !in {Modified, Owned} && t.memory == memory
  {
    InitialHolds(p, memory);
    CleanRun(p, Initial(p, memory), actions, t);
    assert Holds(t, k) !in {Modified, Owned};
  }
}
