/** Every step of the coherence protocol is safe and keeps the invariant. */
module CoherenceSteps {
  import opened Coherence
  import opened CoherenceInvariant
  import opened Sequences

  // ---- Steps that leave everybody's hold on the block as it is ----

  /** Nobody else notices: the same contents, the same directory, and for every line the
      same effective state. */
  ghost predicate SameHolds(s: State, t: State) {
    && |t.lines| == |s.lines| && t.entry == s.entry && t.memory == s.memory && t.latest == s.latest
    && forall k :: 0 <= k < |s.lines| ==> SameHold(s, t, k)
  }

  ghost predicate SameHold(s: State, t: State, k: nat)
    requires k < |s.lines| && k < |t.lines|
  {
    && Holds(t, k) == Holds(s, k)
    && (DirtyLine(t, k) == DirtyLine(s, k))
    && |t.lines[k].data| == |s.lines[k].data|
  }

  lemma SameHoldsKeeps(p: Params, s: State, t: State)
    requires Inv(p, s) && SameHolds(s, t)
    requires forall k :: 0 <= k < |t.lines| ==> LineOk(p, t, k)
    requires EntryOk(p, t)
    ensures Inv(p, t)
  {
    forall k | 0 <= k < |t.lines|
      ensures Known(t, k) && |t.lines[k].data| == p.words
    {
      assert SameHold(s, t, k) && Known(s, k);
    }
    forall j, k | 0 <= j < |t.lines| && 0 <= k < |t.lines| && j != k
      ensures Compatible(Holds(t, j), Holds(t, k))
    {
      assert SameHold(s, t, j) && SameHold(s, t, k) && Compatible(Holds(s, j), Holds(s, k));
    }
    forall k | k in Replies(t.entry.lock)
      ensures ReplyOk(t, k)
    {
      assert ReplyOk(s, k);
      forall j | 0 <= j < |t.lines|
        ensures Holds(t, j) == Holds(s, j)
      {
        assert SameHold(s, t, j);
      }
    }
    if forall k :: 0 <= k < |t.lines| ==> !DirtyLine(t, k) {
      forall k | 0 <= k < |s.lines|
        ensures !DirtyLine(s, k)
      {
        assert SameHold(s, t, k) && !DirtyLine(t, k);
      }
      if forall k :: k in Replies(t.entry.lock) ==> !DirtyReply(t, k) {
        assert forall k :: k in Replies(s.entry.lock) ==> DirtyReply(s, k) == DirtyReply(t, k);
      }
    }
  }

  /** The lock of one line passes between a cache and its own request. */
  ghost predicate OwnLock(lock: Lock) {
    lock == Free || lock == Loading(None) || lock.Storing? || lock == Evicting
  }

  lemma RelockKeeps(p: Params, s: State, i: nat, lock: Lock)
    requires Inv(p, s) && i < |s.lines| && OwnLock(s.lines[i].lock) && OwnLock(lock)
    requires !InService(s, i)
    requires LineOk(p, SetLock(s, i, lock), i)
    ensures Inv(p, SetLock(s, i, lock))
  {
    var t := SetLock(s, i, lock);
    forall k | 0 <= k < |t.lines|
      ensures LineOk(p, t, k) && SameHold(s, t, k)
    {
      assert LineOk(p, s, k);
    }
    forall k | 0 <= k < |t.lines|
      ensures OwnerIs(t, k) == OwnerIs(s, k) && Holds(t, k) == Holds(s, k)
    {
      assert SameHold(s, t, k);
    }
    assert EntryOk(p, t);
    SameHoldsKeeps(p, s, t);
  }

  lemma FreeIsNotInService(p: Params, s: State, i: nat)
    requires Inv(p, s) && i < |s.lines| && (s.lines[i].lock == Free || s.lines[i].lock == Evicting)
    ensures !InService(s, i)
  {
  }

  lemma LoadMissKeeps(p: Params, s: State, i: nat)
    requires Inv(p, s) && Enabled(p, s, LoadMiss(i))
    ensures Inv(p, Apply(p, s, LoadMiss(i)))
  {
    assert LineOk(p, s, i);
    FreeIsNotInService(p, s, i);
    RelockKeeps(p, s, i, Loading(None));
  }

  lemma NothingReceived(p: Params, s: State, i: nat)
    requires Inv(p, s) && i < |s.lines| && s.lines[i].lock.Loading? && !InService(s, i)
    ensures s.lines[i].lock == Loading(None)
  {
    assert LineOk(p, s, i);
  }

  lemma ReadRefusedKeeps(p: Params, s: State, i: nat)
    requires Inv(p, s) && Enabled(p, s, ReadRefused(i))
    ensures Inv(p, Apply(p, s, ReadRefused(i)))
  {
    assert LineOk(p, s, i);
    NothingReceived(p, s, i);
    RelockKeeps(p, s, i, Free);
  }

  lemma StoreMissKeeps(p: Params, s: State, i: nat, word: nat, value: int)
    requires Inv(p, s) && Enabled(p, s, StoreMiss(i, word, value))
    ensures Inv(p, Apply(p, s, StoreMiss(i, word, value)))
  {
    assert LineOk(p, s, i);
    FreeIsNotInService(p, s, i);
    RelockKeeps(p, s, i, Storing(word, value));
  }

  lemma WriteRefusedKeeps(p: Params, s: State, i: nat)
    requires Inv(p, s) && Enabled(p, s, WriteRefused(i))
    ensures Inv(p, Apply(p, s, WriteRefused(i)))
  {
    assert LineOk(p, s, i);
    RelockKeeps(p, s, i, Free);
  }

  lemma EvictKeeps(p: Params, s: State, i: nat)
    requires Inv(p, s) && Enabled(p, s, Evict(i))
    ensures Inv(p, Apply(p, s, Evict(i)))
  {
    assert LineOk(p, s, i);
    FreeIsNotInService(p, s, i);
    RelockKeeps(p, s, i, Evicting);
  }

  lemma EvictRefusedKeeps(p: Params, s: State, i: nat)
    requires Inv(p, s) && Enabled(p, s, EvictRefused(i))
    ensures Inv(p, Apply(p, s, EvictRefused(i)))
  {
    assert LineOk(p, s, i);
    FreeIsNotInService(p, s, i);
    RelockKeeps(p, s, i, Free);
  }

  /** A reply or acknowledgement reaches its cache: what counted already becomes so. */
  lemma ArrivalKeeps(p: Params, s: State, i: nat, line: Line)
    requires Inv(p, s) && i < |s.lines| && (s.lines[i].lock.Loaded? || s.lines[i].lock == Evicted)
    requires line.lock == Free && line.state == Holds(s, i) && |line.data| == p.words
    requires line.state != Invalid ==> line.data == s.latest
    ensures Inv(p, SetLine(s, i, line))
  {
    var t := SetLine(s, i, line);
    assert LineOk(p, s, i);
    forall k | 0 <= k < |t.lines|
      ensures LineOk(p, t, k) && SameHold(s, t, k)
    {
      assert LineOk(p, s, k);
    }
    forall k | 0 <= k < |t.lines|
      ensures OwnerIs(t, k) == OwnerIs(s, k) && Holds(t, k) == Holds(s, k)
    {
      assert SameHold(s, t, k);
    }
    assert EntryOk(p, t);
    SameHoldsKeeps(p, s, t);
  }

  lemma LoadFillKeeps(p: Params, s: State, i: nat)
    requires Inv(p, s) && Enabled(p, s, LoadFill(i))
    ensures Safe(p, s, LoadFill(i)) && Inv(p, Apply(p, s, LoadFill(i)))
    ensures Apply(p, s, LoadFill(i)).lines[i].data == s.latest
  {
    assert LineOk(p, s, i);
    ArrivalKeeps(p, s, i, FillLoad(s, i).lines[i]);
  }

  lemma EvictFinishKeeps(p: Params, s: State, i: nat)
    requires Inv(p, s) && Enabled(p, s, EvictFinish(i))
    ensures Inv(p, Apply(p, s, EvictFinish(i)))
  {
    assert LineOk(p, s, i);
    ArrivalKeeps(p, s, i, s.lines[i].(state := Invalid, lock := Free));
  }

  // ---- Stores ----

  /** While a free or granted line holds the block in E or M, no other does, no reply
      with data is under way, and nothing has been forwarded to a load. */
  lemma Alone(p: Params, s: State, i: nat)
    requires Inv(p, s) && i < |s.lines| && Holds(s, i) in {Exclusive, Modified}
    requires s.lines[i].lock == Free || s.lines[i].lock.Granted?
    ensures forall k :: k in Replies(s.entry.lock) ==> !DirtyReply(s, k)
    ensures forall k :: 0 <= k < |s.lines| && k != i ==> Holds(s, k) == Invalid
    ensures forall k :: 0 <= k < |s.lines| && s.lines[k].lock.Loading? ==> s.lines[k].lock.received == None
  {
    forall k | 0 <= k < |s.lines| && k != i
      ensures Holds(s, k) == Invalid
    {
      assert Compatible(Holds(s, i), Holds(s, k));
    }
    forall k | k in Replies(s.entry.lock)
      ensures !DirtyReply(s, k)
    {
      assert ReplyOk(s, k);
    }
    forall k | 0 <= k < |s.lines| && s.lines[k].lock.Loading?
      ensures s.lines[k].lock.received == None
    {
      NothingForwarded(p, s, i, k);
    }
  }

  lemma NothingForwarded(p: Params, s: State, i: nat, k: nat)
    requires Inv(p, s) && i < |s.lines| && Holds(s, i) in {Exclusive, Modified}
    requires s.lines[i].lock == Free || s.lines[i].lock.Granted?
    requires k < |s.lines| && s.lines[k].lock.Loading?
    ensures s.lines[k].lock.received == None
  {
    assert LineOk(p, s, k) && LineOk(p, s, i);
    if s.lines[k].lock.received.Some? && s.entry.lock.peer.Asked? {
      assert OwnerIs(s, i);
    }
  }

  /** A cache that holds the block alone writes to it. */
  lemma WriteWordKeeps(p: Params, s: State, i: nat, base: Block, word: nat, value: int)
    requires Inv(p, s) && i < |s.lines| && Holds(s, i) in {Exclusive, Modified}
    requires s.lines[i].lock == Free || s.lines[i].lock.Granted?
    requires word < p.words && |base| == p.words && (base == s.latest || p.words == 1)
    ensures Inv(p, WriteWord(s, i, base, word, value))
  {
    var t := WriteWord(s, i, base, word, value);
    assert t.lines[i].data == t.latest;
    Alone(p, s, i);
    forall k | 0 <= k < |t.lines|
      ensures LineOk(p, t, k) && Known(t, k) && OwnerIs(t, k) == OwnerIs(s, k)
      ensures k != i ==> Holds(t, k) == Invalid
    {
      assert LineOk(p, s, k) && Known(s, k);
    }
    assert DirtyLine(t, i);
  }

  lemma StoreHitKeeps(p: Params, s: State, i: nat, word: nat, value: int)
    requires Inv(p, s) && Enabled(p, s, StoreHit(i, word, value))
    ensures Inv(p, Apply(p, s, StoreHit(i, word, value)))
  {
    assert LineOk(p, s, i);
    WriteWordKeeps(p, s, i, s.lines[i].data, word, value);
  }

  lemma StoreFillKeeps(p: Params, s: State, i: nat)
    requires Inv(p, s) && Enabled(p, s, StoreFill(i))
    ensures Inv(p, Apply(p, s, StoreFill(i)))
  {
    assert LineOk(p, s, i);
    var lock := s.lines[i].lock;
    WriteWordKeeps(p, s, i, Base(p, s.lines[i], lock.reply), lock.word, lock.value);
  }

  // ---- Reads at the directory ----

  lemma ReadLockKeeps(p: Params, s: State, i: nat)
    requires Inv(p, s) && Enabled(p, s, ReadLock(i))
    ensures Safe(p, s, ReadLock(i)) && Inv(p, Apply(p, s, ReadLock(i)))
  {
    var t := LockForRead(p, s, i);
    assert LineOk(p, s, i);
    assert OwnerIs(s, i);
    if s.entry.owner != NONE {
      assert OwnerIs(s, s.entry.owner) && LineOk(p, s, s.entry.owner);
    }
    forall k | 0 <= k < |t.lines|
      ensures LineOk(p, t, k) && Known(t, k) && OwnerIs(t, k)
    {
      assert LineOk(p, s, k) && Known(s, k) && OwnerIs(s, k);
    }
    SameLines(p, s, t);
  }

  /** What only depends on the lines. */
  lemma SameLines(p: Params, s: State, t: State)
    requires Single(s) && t.lines == s.lines
    ensures Single(t)
    ensures forall k :: 0 <= k < |s.lines| ==> DirtyLine(t, k) == DirtyLine(s, k) && Holds(t, k) == Holds(s, k)
  {
    forall j, k | 0 <= j < |t.lines| && 0 <= k < |t.lines| && j != k
      ensures Compatible(Holds(t, j), Holds(t, k))
    {
      assert Compatible(Holds(s, j), Holds(s, k));
    }
  }

  lemma ForwardKeeps(p: Params, s: State, k: nat)
    requires Inv(p, s) && Enabled(p, s, Forward(k))
    ensures Safe(p, s, Forward(k)) && Inv(p, Apply(p, s, Forward(k)))
  {
    assert OwnerIs(s, k) && LineOk(p, s, k);
    var i := s.entry.lock.cache;
    var t := Apply(p, s, Forward(k));
    forall x | 0 <= x < |t.lines|
      ensures LineOk(p, t, x) && SameHold(s, t, x) && OwnerIs(t, x)
    {
      assert LineOk(p, s, x) && OwnerIs(s, x);
    }
    assert EntryOk(p, t);
    SameHoldsKeeps(p, s, t);
  }

  lemma AnswerKeeps(p: Params, s: State, k: nat)
    requires Inv(p, s) && Enabled(p, s, Answer(k))
    ensures Safe(p, s, Answer(k)) && Inv(p, Apply(p, s, Answer(k)))
  {
    assert LineOk(p, s, k) && OwnerIs(s, k);
    var i := s.entry.lock.cache;
    var t := AnswerRead(p, s, k);
    forall x | 0 <= x < |t.lines|
      ensures LineOk(p, t, x) && Known(t, x)
      ensures x != k ==> !Owning(Holds(t, x)) && Holds(t, x) == Holds(s, x)
      ensures DirtyLine(t, x) == DirtyLine(s, x)
    {
      assert LineOk(p, s, x) && Known(s, x) && OwnerIs(s, x);
      assert LineOk(p, s, i);
    }
    forall x, y | 0 <= x < |t.lines| && 0 <= y < |t.lines| && x != y
      ensures Compatible(Holds(t, x), Holds(t, y))
    {
      assert Compatible(Holds(s, x), Holds(s, y));
    }
  }

  /** Without owners and replies, memory has the latest. */
  lemma NobodyDirty(p: Params, s: State)
    requires Inv(p, s) && (forall k :: 0 <= k < |s.lines| ==> !Owning(Holds(s, k)))
    requires Replies(s.entry.lock) == map[]
    ensures s.memory == s.latest
  {
    forall k | 0 <= k < |s.lines|
      ensures !DirtyLine(s, k)
    {
      assert LineOk(p, s, k);
    }
  }

  /** When the read request finishes, the owner it had has become a sharer or is in
      state O, and the data for the requester is the latest. */
  lemma ReadAnswered(p: Params, s: State)
    requires Inv(p, s) && Enabled(p, s, ReadFinish)
    ensures s.entry.lock.cache < |s.lines| && s.lines[s.entry.lock.cache].lock.Loading?
    ensures FillOk(s, Reply(s.entry.lock.size, s.memory), s.lines[s.entry.lock.cache].lock.received)
    ensures s.entry.owner != s.entry.lock.cache
    ensures forall k :: 0 <= k < |s.lines| ==>
      (Owning(Holds(s, k)) <==> s.entry.lock.peer.Answered? && s.entry.lock.peer.retain && k == s.entry.owner)
    ensures s.entry.owner >= 0 ==> Holds(s, s.entry.owner) in {Owned, CacheState.Shared}
  {
    var i := s.entry.lock.cache;
    assert LineOk(p, s, i);
    match s.entry.lock.peer
    case NoPeer =>
      forall k | 0 <= k < |s.lines|
        ensures !Owning(Holds(s, k))
      {
        assert OwnerIs(s, k);
      }
      NobodyDirty(p, s);
    case Answered(k, retain) =>
  }

  lemma ReadFinishKeeps(p: Params, s: State)
    requires Inv(p, s) && Enabled(p, s, ReadFinish)
    ensures Safe(p, s, ReadFinish) && Inv(p, Apply(p, s, ReadFinish))
  {
    var i := s.entry.lock.cache;
    var t := FinishRead(s);
    assert LineOk(p, s, i) && Known(s, i);
    ReadAnswered(p, s);
    AloneOrShared(s.entry.sharers, i);
    forall x | 0 <= x < |t.lines|
      ensures LineOk(p, t, x) && Known(t, x) && OwnerIs(t, x) && DirtyLine(t, x) == DirtyLine(s, x)
    {
      assert LineOk(p, s, x) && Known(s, x);
    }
    GrantedRead(p, s);
  }

  /** The new reader fits in with the other holders. */
  lemma GrantedRead(p: Params, s: State)
    requires Inv(p, s) && Enabled(p, s, ReadFinish)
    requires s.entry.lock.cache < |s.lines| && s.lines[s.entry.lock.cache].lock.Loading?
    ensures Single(FinishRead(s))
  {
    var i := s.entry.lock.cache;
    var t := FinishRead(s);
    assert LineOk(p, s, i);
    ReadAnswered(p, s);
    AloneOrShared(s.entry.sharers, i);
    forall x, y | 0 <= x < |t.lines| && 0 <= y < |t.lines| && x != y
      ensures Compatible(Holds(t, x), Holds(t, y))
    {
      assert Compatible(Holds(s, x), Holds(s, y));
      assert Known(s, x) && Known(s, y);
    }
  }

  lemma AloneOrShared(sharers: set<nat>, i: nat)
    ensures |sharers + {i}| > 1 <==> exists k :: k in sharers && k != i
  {
    if k :| k in sharers && k != i {
      SubsetSize({i, k}, sharers + {i});
    } else {
      assert sharers + {i} == {i};
    }
  }

  // ---- Writes and evictions at the directory ----

  lemma WriteLockKeeps(p: Params, s: State, i: nat)
    requires Inv(p, s) && Enabled(p, s, WriteLock(i))
    ensures Safe(p, s, WriteLock(i)) && Inv(p, Apply(p, s, WriteLock(i)))
  {
    var t := LockForWrite(s, i);
    assert LineOk(p, s, i) && OwnerIs(s, i) && Known(s, i);
    if s.entry.owner != NONE {
      assert OwnerIs(s, s.entry.owner) && Known(s, s.entry.owner);
    }
    forall k | 0 <= k < |t.lines|
      ensures LineOk(p, t, k) && Known(t, k)
    {
      assert LineOk(p, s, k) && Known(s, k);
    }
    SameLines(p, s, t);
  }

  lemma InvalidateKeeps(p: Params, s: State, k: nat)
    requires Inv(p, s) && Enabled(p, s, Invalidate(k))
    ensures Safe(p, s, Invalidate(k)) && Inv(p, Apply(p, s, Invalidate(k)))
  {
    var t := InvalidateLine(p, s, k);
    assert LineOk(p, s, k) && Known(s, k);
    forall x | 0 <= x < |t.lines|
      ensures LineOk(p, t, x) && Known(t, x)
      ensures x != k ==> Holds(t, x) == Holds(s, x) && DirtyLine(t, x) == DirtyLine(s, x)
    {
      assert LineOk(p, s, x) && Known(s, x);
    }
    forall x, y | 0 <= x < |t.lines| && 0 <= y < |t.lines| && x != y
      ensures Compatible(Holds(t, x), Holds(t, y))
    {
      assert Compatible(Holds(s, x), Holds(s, y));
    }
    InvalidateReplies(p, s, k);
    if s.entry.lock.Writing? {
      assert OwnerIs(s, s.entry.lock.cache);
    }
  }

  lemma InvalidateReplies(p: Params, s: State, k: nat)
    requires Inv(p, s) && Enabled(p, s, Invalidate(k))
    ensures RepliesOk(InvalidateLine(p, s, k)) && MemoryOk(InvalidateLine(p, s, k))
  {
    var t := InvalidateLine(p, s, k);
    assert LineOk(p, s, k);
    forall j | 0 <= j < |t.lines|
      ensures Owning(Holds(t, j)) ==> Owning(Holds(s, j)) && j != k
      ensures Dirty(s.lines[k].state) ==> !Owning(Holds(t, j))
      ensures j != k ==> DirtyLine(t, j) == DirtyLine(s, j)
    {
      assert j == k || Compatible(Holds(s, k), Holds(s, j));
    }
    forall x | x in Replies(t.entry.lock)
      ensures ReplyOk(t, x)
    {
      assert x == k || ReplyOk(s, x);
    }
    if DirtyLine(s, k) {
      assert DirtyReply(t, k);
    } else {
      assert forall x :: x in Replies(s.entry.lock) ==> DirtyReply(t, x) == DirtyReply(s, x);
    }
  }

  lemma InvalidateFinishKeeps(p: Params, s: State, k: nat)
    requires Inv(p, s) && Enabled(p, s, InvalidateFinish(k))
    ensures Inv(p, Apply(p, s, InvalidateFinish(k)))
  {
    var t := AcceptReply(s, k);
    assert ReplyOk(s, k);
    forall x | 0 <= x < |t.lines|
      ensures LineOk(p, t, x) && Known(t, x)
    {
      assert LineOk(p, s, x) && Known(s, x);
    }
    SameLines(p, s, t);
    forall x | x in Replies(t.entry.lock)
      ensures ReplyOk(t, x)
    {
      assert ReplyOk(s, x);
    }
    if s.entry.lock.Writing? {
      assert OwnerIs(s, s.entry.lock.cache);
    }
    if !DirtyReply(s, k) {
      assert forall x :: x in Replies(t.entry.lock) ==> DirtyReply(t, x) == DirtyReply(s, x);
    }
  }

  /** When the write request finishes, the requester is the only one left that holds
      the block, and memory has the latest unless the requester owns it. */
  lemma WriteAnswered(p: Params, s: State)
    requires Inv(p, s) && Enabled(p, s, WriteFinish)
    ensures s.entry.lock.cache < |s.lines| && s.lines[s.entry.lock.cache].lock.Storing?
    ensures forall k :: 0 <= k < |s.lines| && k != s.entry.lock.cache ==> Holds(s, k) == Invalid
    ensures s.entry.sharers + {s.entry.lock.cache} == {s.entry.lock.cache}
    ensures s.lines[s.entry.lock.cache].state != Owned ==> s.memory == s.latest
  {
    var i := s.entry.lock.cache;
    assert LineOk(p, s, i);
    forall k | 0 <= k < |s.lines| && k != i
      ensures Holds(s, k) == Invalid
    {
      assert Known(s, k);
    }
    if s.lines[i].state != Owned {
      forall k | 0 <= k < |s.lines|
        ensures !Owning(Holds(s, k))
      {
        assert k == i || Holds(s, k) == Invalid;
      }
      NobodyDirty(p, s);
    }
  }

  /** What the requester will store into is the latest: it keeps its copy, overwrites the
      whole block, or is not in state O, in which memory is out of date. */
  predicate ReplyServes(p: Params, s: State)
    requires s.entry.lock.Writing?
  {
    || !p.install || p.words == 1
    || (s.entry.lock.cache < |s.lines| && s.lines[s.entry.lock.cache].state != Owned)
  }

  lemma WriteFinishSafe(p: Params, s: State)
    requires Inv(p, s) && Enabled(p, s, WriteFinish)
    ensures Safe(p, s, WriteFinish)
  {
    WriteAnswered(p, s);
  }

  lemma WriteFinishKeeps(p: Params, s: State)
    requires Inv(p, s) && Enabled(p, s, WriteFinish) && ReplyServes(p, s)
    ensures Safe(p, s, WriteFinish) && Inv(p, Apply(p, s, WriteFinish))
  {
    WriteAnswered(p, s);
    var i := s.entry.lock.cache;
    var t := FinishWrite(p, s);
    assert LineOk(p, s, i);
    forall x | 0 <= x < |t.lines|
      ensures LineOk(p, t, x) && Known(t, x) && OwnerIs(t, x)
      ensures x != i ==> Holds(t, x) == Invalid
      ensures DirtyLine(t, x) == DirtyLine(s, x)
    {
      assert LineOk(p, s, x) && Known(s, x);
    }
  }

  lemma EvictProcessKeeps(p: Params, s: State, i: nat)
    requires Inv(p, s) && Enabled(p, s, EvictProcess(i))
    ensures Safe(p, s, EvictProcess(i)) && Inv(p, Apply(p, s, EvictProcess(i)))
  {
    var t := ProcessEvict(s, i);
    assert LineOk(p, s, i) && Known(s, i) && OwnerIs(s, i);
    forall x | 0 <= x < |t.lines|
      ensures LineOk(p, t, x) && Known(t, x) && OwnerIs(t, x)
      ensures x != i ==> Holds(t, x) == Holds(s, x) && DirtyLine(t, x) == DirtyLine(s, x)
    {
      assert LineOk(p, s, x) && Known(s, x) && OwnerIs(s, x);
    }
    forall x, y | 0 <= x < |t.lines| && 0 <= y < |t.lines| && x != y
      ensures Compatible(Holds(t, x), Holds(t, y))
    {
      assert Compatible(Holds(s, x), Holds(s, y));
    }
  }

  lemma EvictEntryKeeps(p: Params, s: State)
    requires Inv(p, s) && Enabled(p, s, EvictEntry)
    ensures Inv(p, Apply(p, s, EvictEntry))
  {
    var t := Apply(p, s, EvictEntry);
    forall x | 0 <= x < |t.lines|
      ensures LineOk(p, t, x) && Known(t, x)
    {
      assert LineOk(p, s, x) && Known(s, x);
    }
    SameLines(p, s, t);
  }

  lemma EntryEvictedKeeps(p: Params, s: State)
    requires Inv(p, s) && Enabled(p, s, EntryEvicted)
    ensures Safe(p, s, EntryEvicted) && Inv(p, Apply(p, s, EntryEvicted))
  {
    var t := Apply(p, s, EntryEvicted);
    forall x | 0 <= x < |t.lines|
      ensures LineOk(p, t, x) && Known(t, x) && OwnerIs(t, x)
    {
      assert LineOk(p, s, x) && Known(s, x);
    }
    SameLines(p, s, t);
  }

  /** Every step is safe and keeps the invariant, as long as replies to write requests
      serve. */
  lemma StepKeeps(p: Params, s: State, a: Action)
    requires Inv(p, s) && Enabled(p, s, a)
    requires a.WriteFinish? ==> ReplyServes(p, s)
    ensures Safe(p, s, a) && Inv(p, Apply(p, s, a))
  {
    if a.Invalidate? || a.InvalidateFinish? || a.WriteFinish? || a.StoreFill? || a.WriteLock? || a.WriteRefused? {
      WriteStepKeeps(p, s, a);
    } else if a.Evict? || a.EvictRefused? || a.EvictProcess? || a.EvictFinish? || a.EvictEntry? || a.EntryEvicted? {
      EvictionStepKeeps(p, s, a);
    } else {
      AccessStepKeeps(p, s, a);
    }
  }

  lemma WriteStepKeeps(p: Params, s: State, a: Action)
    requires Inv(p, s) && Enabled(p, s, a) && (a.WriteFinish? ==> ReplyServes(p, s))
    requires a.Invalidate? || a.InvalidateFinish? || a.WriteFinish? || a.StoreFill? || a.WriteLock? || a.WriteRefused?
    ensures Safe(p, s, a) && Inv(p, Apply(p, s, a))
  {
    match a
    case WriteRefused(i) => WriteRefusedKeeps(p, s, i);
    case WriteLock(i) => WriteLockKeeps(p, s, i);
    case Invalidate(k) => InvalidateKeeps(p, s, k);
    case InvalidateFinish(k) => InvalidateFinishKeeps(p, s, k);
    case WriteFinish => WriteFinishKeeps(p, s);
    case StoreFill(i) => StoreFillKeeps(p, s, i);
  }

  lemma EvictionStepKeeps(p: Params, s: State, a: Action)
    requires Inv(p, s) && Enabled(p, s, a)
    requires a.Evict? || a.EvictRefused? || a.EvictProcess? || a.EvictFinish? || a.EvictEntry? || a.EntryEvicted?
    ensures Safe(p, s, a) && Inv(p, Apply(p, s, a))
  {
    match a
    case Evict(i) => EvictKeeps(p, s, i);
    case EvictRefused(i) => EvictRefusedKeeps(p, s, i);
    case EvictProcess(i) => EvictProcessKeeps(p, s, i);
    case EvictFinish(i) => EvictFinishKeeps(p, s, i);
    case EvictEntry => EvictEntryKeeps(p, s);
    case EntryEvicted => EntryEvictedKeeps(p, s);
  }

  lemma AccessStepKeeps(p: Params, s: State, a: Action)
    requires Inv(p, s) && Enabled(p, s, a)
    requires a.LoadHit? || a.LoadMiss? || a.ReadRefused? || a.ReadLock? || a.Forward? || a.Answer? || a.ReadFinish?
             || a.LoadFill? || a.StoreHit? || a.StoreMiss?
    ensures Safe(p, s, a) && Inv(p, Apply(p, s, a))
  {
    match a
    case LoadHit(i) =>
    case LoadMiss(i) => LoadMissKeeps(p, s, i);
    case ReadRefused(i) => ReadRefusedKeeps(p, s, i);
    case ReadLock(i) => ReadLockKeeps(p, s, i);
    case Forward(k) => ForwardKeeps(p, s, k);
    case Answer(k) => AnswerKeeps(p, s, k);
    case ReadFinish => ReadFinishKeeps(p, s);
    case LoadFill(i) => LoadFillKeeps(p, s, i);
    case StoreHit(i, word, value) => StoreHitKeeps(p, s, i, word, value);
    case StoreMiss(i, word, value) => StoreMissKeeps(p, s, i, word, value);
  }
}
