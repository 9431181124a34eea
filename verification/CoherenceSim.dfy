/** The modules of the memory hierarchy, updated in place by the protocol's handlers. Each
    method is tied to the steps of Coherence that it implements, keeps the invariant, and
    meets its assertions. */
module CoherenceSim {
  import opened Sequences
  import opened Coherence
  import opened CoherenceInvariant
  import opened CoherenceSteps
  import opened CoherenceRuns
  import Directory

  /** A first-level cache, as far as one block is concerned. */
  class Cache {
    var state: CacheState
    var data: Block
    var lock: Lock

    constructor (words: nat)
      ensures View() == Line(Invalid, Zeros(words), Free)
    {
      state := Invalid;
      data := Zeros(words);
      lock := Free;
    }

    ghost function View(): Line
      reads this
    {
      Line(state, data, lock)
    }
  }

  /** The caches and the memory module with its directory entry for the block. */
  class Hierarchy {
    const p: Params
    const caches: seq<Cache>
    const dir: Directory.DirEntry
    var state: CacheState
    var lock: EntryLock
    var memory: Block
    var pending: int
    ghost var latest: Block

    ghost predicate Objects()
      reads dir, dir.sharer
    {
      && ValidParams(p)
      && |caches| == p.caches
      && (forall i, j :: 0 <= i < j < |caches| ==> caches[i] != caches[j])
      && dir.nodes == p.caches && dir.Valid()
    }

    ghost function View(): Coherence.State
      requires Objects()
      reads this, caches, dir, dir.sharer
    {
      Coherence.State(
        seq(|caches|, i requires 0 <= i < |caches| reads caches => caches[i].View()),
        Entry(state, dir.View().sharers, dir.owner, lock), memory, latest)
    }

    /** The counter of outstanding requests agrees with the entry's lock. */
    ghost predicate Counts()
      reads this
    {
      Waiting(lock) ==> pending == |lock.pending| + |lock.replies|
    }

    ghost predicate Valid()
      reads this, caches, dir, dir.sharer
    {
      Objects() && Counts() && Inv(p, View())
    }

    constructor (p: Params, memory: Block)
      requires ValidParams(p) && |memory| == p.words
      ensures Valid() && this.p == p && View() == Initial(p, memory)
    {
      var created: seq<Cache> := [];
      for i := 0 to p.caches
        invariant |created| == i
        invariant forall j :: 0 <= j < i ==> fresh(created[j]) && created[j].View() == Line(Invalid, Zeros(p.words), Free)
        invariant forall j, k :: 0 <= j < k < i ==> created[j] != created[k]
      {
        var cache := new Cache(p.words);
        created := created + [cache];
      }
      var entry := new Directory.DirEntry(p.caches);
      this.p := p;
      caches := created;
      dir := entry;
      state := Invalid;
      lock := Unlocked;
      this.memory := memory;
      pending := 0;
      latest := memory;
      new;
      InitialHolds(p, memory);
      assert View() == Initial(p, memory);
    }

    // ---- Building blocks ----

    method SetCache(i: nat, state: CacheState, data: Block, lock: Lock)
      requires Objects() && i < |caches|
      modifies caches[i]
      ensures Objects() && View() == SetLine(old(View()), i, Line(state, data, lock))
    {
      caches[i].state := state;
      caches[i].data := data;
      caches[i].lock := lock;
      assert View().lines == old(View()).lines[i := caches[i].View()];
    }

    method SetCacheLock(i: nat, lock: Lock)
      requires Objects() && i < |caches|
      modifies caches[i]
      ensures Objects() && View() == SetLock(old(View()), i, lock)
    {
      assert old(View()).lines[i] == caches[i].View();
      caches[i].lock := lock;
      assert View().lines == old(View()).lines[i := caches[i].View()];
    }

    // ---- Loads ----

    /** A load that has found and locked its line: a hit returns the data, a miss keeps
        the lock and sends a read request. */
    method Load(i: nat) returns (hit: bool, data: Block)
      requires Valid() && i < |caches| && caches[i].lock == Free
      modifies caches[i]
      ensures Valid() && hit == (old(caches[i].state) != Invalid)
      ensures hit ==> View() == Apply(p, old(View()), LoadHit(i)) && data == latest
      ensures !hit ==> View() == Apply(p, old(View()), LoadMiss(i))
    {
      ghost var s := View();
      assert s.lines[i] == caches[i].View() && LineOk(p, s, i);
      hit := caches[i].state != Invalid;
      data := caches[i].data;
      if !hit {
        LoadMissKeeps(p, s, i);
        SetCacheLock(i, Loading(None));
      }
    }

    /** The read request reaches the directory. A locked entry refuses it at once;
        otherwise the entry is locked, and an owner is asked for the block. */
    method ReadRequest(i: nat) returns (err: bool)
      requires Valid() && i < |caches| && caches[i].lock.Loading? && !InService(View(), i)
      modifies this, caches[i]
      ensures Valid()
      ensures err == (old(lock) != Unlocked)
      ensures err ==> View() == Apply(p, old(View()), ReadRefused(i))
      ensures !err ==> Safe(p, old(View()), ReadLock(i)) && View() == Apply(p, old(View()), ReadLock(i))
    {
      ghost var s := View();
      assert s.lines[i] == caches[i].View();
      err := lock != Unlocked;
      if err {
        ReadRefusedKeeps(p, s, i);
        SetCacheLock(i, Free);
        return;
      }
      ReadLockKeeps(p, s, i);
      StartRead(i);
    }

    method StartRead(i: nat)
      requires Objects() && lock == Unlocked && dir.owner != i
      modifies this`state, this`lock
      ensures Objects() && Counts() && View() == LockForRead(p, old(View()), i)
    {
      ghost var s := View();
      FindEntry();
      lock := Reading(i, if dir.owner >= 0 && dir.owner != i then Asked(dir.owner) else NoPeer, p.bytes + 8);
      assert View().lines == s.lines;
    }

    /** A block without entry gets a fresh one: memory has the block. */
    method FindEntry()
      requires Objects()
      modifies this`state
      ensures Objects() && View() == old(View()).(entry := Found(old(View()).entry))
    {
      if state == Invalid {
        state := Exclusive;
      }
      assert View().lines == old(View()).lines;
    }

    /** The request from below locks the owner's line and sends the block to the peer. */
    method ForwardToPeer(k: nat)
      requires Valid() && k < |caches| && caches[k].lock == Free && lock.Reading? && lock.peer == Asked(k)
      modifies caches
      ensures Safe(p, old(View()), Forward(k)) && Valid() && View() == Apply(p, old(View()), Forward(k))
    {
      ghost var s := View();
      assert s.lines[k] == caches[k].View();
      ForwardKeeps(p, s, k);
      assert caches[k].state != Invalid && caches[k].state != CacheState.Shared;
      SetCacheLock(k, Forwarding(lock.cache));
      SetCacheLock(lock.cache, Loading(Some(caches[k].data)));
    }

    /** The peer has acknowledged: the owner keeps the block in state O or S, and the
        reply to the requester shrinks by what the peer has received. */
    method AnswerOwner(k: nat)
      requires Valid() && k < |caches| && caches[k].lock.Forwarding?
      modifies this`lock, caches[k]
      ensures Safe(p, old(View()), Answer(k)) && Valid() && View() == Apply(p, old(View()), Answer(k))
    {
      ghost var s := View();
      assert s.lines[k] == caches[k].View();
      AnswerKeeps(p, s, k);
      KeepCopy(k);
    }

    method KeepCopy(k: nat)
      requires Objects() && k < |caches| && lock.Reading?
      modifies this`lock, caches[k]
      ensures Objects() && lock.Reading? && View() == AnswerRead(p, old(View()), k)
    {
      ghost var s := View();
      assert s.lines[k] == caches[k].View();
      var retain := caches[k].state == Modified || caches[k].state == Owned;
      SetCache(k, if retain then Owned else CacheState.Shared, caches[k].data, Free);
      lock := lock.(peer := Answered(k, retain), size := lock.size - p.bytes);
      assert View().lines == AnswerRead(p, s, k).lines;
    }

    /** The directory completes the read request: it updates the owner, adds the sharer,
        unlocks the entry, and replies whether the block is shared. */
    method ReadRequestFinish()
      requires Valid() && lock.Reading? && !lock.peer.Asked?
      modifies this`lock, dir, dir.sharer, caches
      ensures Safe(p, old(View()), ReadFinish) && Valid() && View() == Apply(p, old(View()), ReadFinish)
    {
      ReadFinishKeeps(p, View());
      GrantRead();
    }

    method GrantRead()
      requires Objects() && lock.Reading? && lock.cache < |caches| && View().lines[lock.cache].lock.Loading?
      modifies this`lock, dir, dir.sharer, caches
      ensures Objects() && lock == Unlocked && View() == FinishRead(old(View()))
    {
      var i, size := lock.cache, lock.size;
      assert View().lines[i] == caches[i].View();
      var shared := AddReader(i, lock.peer.Answered? && lock.peer.retain);
      lock := Unlocked;
      SetCacheLock(i, Loaded(shared, Reply(size, memory), caches[i].lock.received));
    }

    /** Without an owner that retains the block, the reader is a sharer, and the owner if
        it is alone. */
    method AddReader(i: nat, retain: bool) returns (shared: bool)
      requires Objects() && i < |caches|
      modifies dir, dir.sharer
      ensures var s := old(View());
        && shared == (|s.entry.sharers + {i}| > 1)
        && Objects() && View() == s.(entry := s.entry.(
             sharers := s.entry.sharers + {i},
             owner := if !shared then i else if !retain && s.entry.owner != i then NONE else s.entry.owner))
    {
      ghost var s := View();
      if !retain && dir.owner != i {
        dir.SetOwner(NONE);
      }
      dir.SetSharer(i);
      shared := dir.numSharers > 1;
      if !shared {
        dir.SetOwner(i);
      }
      assert View().lines == s.lines;
    }

    /** The reply reaches the cache, which sets the block's state and unlocks the line. */
    method LoadMissFinish(i: nat) returns (data: Block)
      requires Valid() && i < |caches| && caches[i].lock.Loaded?
      modifies caches[i]
      ensures Safe(p, old(View()), Action.LoadFill(i)) && Valid() && View() == Apply(p, old(View()), Action.LoadFill(i))
      ensures data == latest && data == caches[i].data
    {
      ghost var s := View();
      assert s.lines[i] == caches[i].View();
      LoadFillKeeps(p, s, i);
      assert LineOk(p, s, i);
      var l := caches[i].lock;
      data := if l.reply.size > 8 then l.reply.data else l.received.value;
      SetCache(i, if l.shared then CacheState.Shared else Exclusive, data, Free);
    }

    // ---- Stores ----

    /** A store that has found and locked its line: in state M or E it writes at once, in
        any other it keeps the lock and sends a write request. */
    method Store(i: nat, word: nat, value: int) returns (hit: bool)
      requires Valid() && i < |caches| && word < p.words && caches[i].lock == Free
      modifies this`latest, caches[i]
      ensures Valid() && hit == (old(caches[i].state) in {Modified, Exclusive})
      ensures hit ==> View() == Apply(p, old(View()), StoreHit(i, word, value))
      ensures !hit ==> View() == Apply(p, old(View()), StoreMiss(i, word, value))
    {
      ghost var s := View();
      assert s.lines[i] == caches[i].View();
      hit := caches[i].state == Modified || caches[i].state == Exclusive;
      if hit {
        StoreHitKeeps(p, s, i, word, value);
        Write(i, caches[i].data, word, value);
      } else {
        StoreMissKeeps(p, s, i, word, value);
        SetCacheLock(i, Storing(word, value));
      }
    }

    method Write(i: nat, base: Block, word: nat, value: int)
      requires Objects() && i < |caches|
      modifies this`latest, caches[i]
      ensures Objects() && View() == WriteWord(old(View()), i, base, word, value)
    {
      SetCache(i, Modified, Update(base, word, value), Free);
      ghost var t := View();
      latest := Update(latest, word, value);
      assert View().lines == t.lines;
    }

    /** The write request reaches the directory. A locked entry refuses it; otherwise the
        entry is locked, and all other sharers are asked to give up the block. */
    method WriteRequest(i: nat) returns (err: bool)
      requires Valid() && i < |caches| && caches[i].lock.Storing? && !InService(View(), i)
      modifies this, dir, dir.sharer, caches[i]
      ensures Valid()
      ensures err == (old(lock) != Unlocked)
      ensures err ==> View() == Apply(p, old(View()), WriteRefused(i))
      ensures !err ==> Safe(p, old(View()), WriteLock(i)) && View() == Apply(p, old(View()), WriteLock(i))
    {
      ghost var s := View();
      assert s.lines[i] == caches[i].View();
      err := lock != Unlocked;
      if err {
        WriteRefusedKeeps(p, s, i);
        SetCacheLock(i, Free);
        return;
      }
      WriteLockKeeps(p, s, i);
      StartWrite(i);
    }

    method StartWrite(i: nat)
      requires Objects() && lock == Unlocked && i < |caches|
      modifies this, dir, dir.sharer
      ensures Objects() && Counts() && View() == LockForWrite(old(View()), i)
    {
      ghost var s := View();
      FindEntry();
      var requests := InvalidateSharers(i);
      assert requests == Others(s.entry, i);
      lock := Writing(i, requests, map[]);
      assert View().lines == s.lines;
    }

    /** Clear all sharers except one, and the owner among them, and count the write
        requests that go to them. */
    method InvalidateSharers(except: int) returns (requests: set<nat>)
      requires Objects() && lock == Unlocked
      modifies this`pending, dir, dir.sharer
      ensures Objects() && pending == |requests|
      ensures forall j :: j in requests <==> j in old(dir.View().sharers) && j != except
      ensures dir.View().sharers == old(dir.View().sharers) - requests
      ensures dir.owner == if old(dir.owner) in requests then NONE else old(dir.owner)
    {
      pending := 1;
      requests := DropSharers(except);
      pending := pending - 1;
    }

    method DropSharers(except: int) returns (requests: set<nat>)
      requires dir.Valid() && dir.nodes == p.caches
      modifies this`pending, dir, dir.sharer
      ensures dir.Valid() && pending == old(pending) + |requests|
      ensures forall j :: j in requests <==> j in old(dir.View().sharers) && j != except
      ensures dir.View().sharers == old(dir.View().sharers) - requests
      ensures dir.owner == if old(dir.owner) in requests then NONE else old(dir.owner)
    {
      ghost var sharers := dir.View().sharers;
      requests := {};
      for k := 0 to p.caches
        invariant dir.Valid()
        invariant Dropped(sharers, dir.View().sharers, requests, k, except)
        invariant dir.owner == if old(dir.owner) in requests then NONE else old(dir.owner)
        invariant pending == old(pending) + |requests|
      {
        ghost var left := dir.View().sharers;
        var sent := DropSharer(k, except);
        DropOne(sharers, left, requests, k, except);
        if sent {
          requests := requests + {k};
          pending := pending + 1;
        }
      }
    }

    /** A sharer other than `except` is cleared, also as owner, and gets a request. */
    method DropSharer(k: nat, except: int) returns (sent: bool)
      requires dir.Valid() && k < dir.nodes
      modifies dir, dir.sharer
      ensures dir.Valid() && (sent <==> k in old(dir.View().sharers) && k != except)
      ensures dir.View().sharers == if sent then old(dir.View().sharers) - {k} else old(dir.View().sharers)
      ensures dir.owner == if sent && old(dir.owner) == k then NONE else old(dir.owner)
    {
      var isSharer := dir.IsSharer(k);
      sent := isSharer && k != except;
      if sent {
        dir.ClearSharer(k);
        if dir.owner == k {
          dir.SetOwner(NONE);
        }
      }
    }

    /** The request from below invalidates a sharer, which replies with its data if they
        were newer. */
    method GiveUpCopy(k: nat)
      requires Valid() && k < |caches| && caches[k].lock == Free && Waiting(lock) && k in lock.pending
      modifies this`lock, caches[k]
      ensures Safe(p, old(View()), Action.Invalidate(k)) && Valid() && View() == Apply(p, old(View()), Action.Invalidate(k))
    {
      assert View().lines[k] == caches[k].View();
      InvalidateKeeps(p, View(), k);
      assert caches[k].state != Invalid;
      SendCopyBack(k);
    }

    method SendCopyBack(k: nat)
      requires Objects() && k < |caches| && Waiting(lock) && k in lock.pending && k !in lock.replies
      modifies this`lock, caches[k]
      ensures Objects() && View() == InvalidateLine(p, old(View()), k)
      ensures Waiting(lock) && |lock.pending| + |lock.replies| == old(|lock.pending| + |lock.replies|)
    {
      ghost var s := View();
      assert s.lines[k] == caches[k].View();
      var dirty := caches[k].state == Modified || caches[k].state == Owned;
      var reply := Reply(if dirty then p.bytes + 8 else 8, caches[k].data);
      SameCount(lock.pending, lock.replies, k, reply);
      lock := lock.(pending := lock.pending - {k}, replies := lock.replies[k := reply]);
      assert View().lines == s.lines;
      caches[k].state := Invalid;
      assert View().lines == s.lines[k := caches[k].View()];
    }

    /** A reply reaches the directory. The last one lets the waiting handler go on. */
    method InvalidateReply(k: nat) returns (done: bool)
      requires Valid() && Waiting(lock) && k in lock.replies
      modifies this
      ensures Valid() && View() == Apply(p, old(View()), InvalidateFinish(k))
      ensures done <==> lock.pending == {} && lock.replies == map[]
    {
      InvalidateFinishKeeps(p, View(), k);
      TakeReply(k);
      done := pending == 0;
      NothingLeft(lock.pending, lock.replies);
    }

    method TakeReply(k: nat)
      requires Objects() && Counts() && Waiting(lock) && k in lock.replies
      modifies this`memory, this`pending, this`lock
      ensures Objects() && Counts() && Waiting(lock) && View() == AcceptReply(old(View()), k)
    {
      ghost var s := View();
      var reply := lock.replies[k];
      if reply.size > 8 {
        memory := reply.data;
      }
      OneLess(lock.replies, k);
      assert pending > 0;
      pending := pending - 1;
      lock := lock.(replies := lock.replies - {k});
      assert View().lines == s.lines;
    }

    /** The directory completes the write request: the requester becomes the only sharer
        and the owner, and the reply carries the block from memory. The invariant, which
        says that this is the latest data, holds if the reply serves. */
    method WriteRequestFinish()
      requires Valid() && Enabled(p, View(), WriteFinish)
      modifies this, dir, dir.sharer, caches
      ensures Safe(p, old(View()), WriteFinish)
      ensures Objects() && Counts() && View() == Apply(p, old(View()), WriteFinish)
      ensures old(ReplyServes(p, View())) ==> Valid()
    {
      ghost var s := View();
      WriteFinishSafe(p, s);
      if ReplyServes(p, s) {
        WriteFinishKeeps(p, s);
      }
      GrantWrite();
    }

    method GrantWrite()
      requires Objects() && lock.Writing? && lock.cache < |caches| && View().lines[lock.cache].lock.Storing?
      requires |View().entry.sharers + {lock.cache}| == 1
      modifies this`lock, this`state, dir, dir.sharer, caches
      ensures Objects() && lock == Unlocked && View() == FinishWrite(p, old(View()))
    {
      ghost var s := View();
      var i := lock.cache;
      assert s.lines[i] == caches[i].View();
      dir.SetSharer(i);
      dir.SetOwner(i);
      assert dir.numSharers == 1;
      lock := Unlocked;
      state := Exclusive;
      assert View().lines == s.lines;
      var l := caches[i].lock;
      SetCacheLock(i, Granted(l.word, l.value, Reply(p.bytes + 8, memory)));
    }

    /** The reply reaches the cache, which now writes, and unlocks the line. */
    method StoreFinish(i: nat)
      requires Valid() && i < |caches| && caches[i].lock.Granted?
      modifies this`latest, caches[i]
      ensures Valid() && View() == Apply(p, old(View()), StoreFill(i))
    {
      ghost var s := View();
      assert s.lines[i] == caches[i].View();
      StoreFillKeeps(p, s, i);
      var l := caches[i].lock;
      Write(i, Base(p, Line(caches[i].state, caches[i].data, l), l.reply), l.word, l.value);
    }

    // ---- Evictions ----

    method StartEviction(i: nat)
      requires Valid() && i < |caches| && caches[i].lock == Free && caches[i].state != Invalid
      modifies caches[i]
      ensures Valid() && View() == Apply(p, old(View()), Evict(i))
    {
      assert View().lines[i] == caches[i].View();
      EvictKeeps(p, View(), i);
      SetCacheLock(i, Evicting);
    }

    /** The eviction reaches the directory. A locked entry refuses it; otherwise modified
        data is written to memory, and the cache is no longer a sharer or the owner. */
    method EvictReceive(i: nat) returns (err: bool)
      requires Valid() && i < |caches| && caches[i].lock == Evicting
      modifies this, dir, dir.sharer, caches[i]
      ensures Valid()
      ensures err == (old(lock) != Unlocked)
      ensures err ==> View() == Apply(p, old(View()), EvictRefused(i))
      ensures !err ==> Safe(p, old(View()), EvictProcess(i)) && View() == Apply(p, old(View()), EvictProcess(i))
    {
      ghost var s := View();
      assert s.lines[i] == caches[i].View();
      err := lock != Unlocked;
      if err {
        EvictRefusedKeeps(p, s, i);
        SetCacheLock(i, Free);
        return;
      }
      EvictProcessKeeps(p, s, i);
      RemoveSharer(i);
    }

    method RemoveSharer(i: nat)
      requires Objects() && lock == Unlocked && i < |caches|
      modifies this`state, this`memory, dir, dir.sharer, caches[i]
      ensures Objects() && View() == ProcessEvict(old(View()), i)
    {
      ghost var s := View();
      assert s.lines[i] == caches[i].View();
      FindEntry();
      if caches[i].state == Modified || caches[i].state == Owned {
        state := Modified;
        memory := caches[i].data;
      }
      dir.ClearSharer(i);
      if dir.owner == i {
        dir.SetOwner(NONE);
      }
      assert View().lines == s.lines;
      SetCacheLock(i, Evicted);
    }

    method EvictReply(i: nat)
      requires Valid() && i < |caches| && caches[i].lock == Evicted
      modifies caches[i]
      ensures Valid() && View() == Apply(p, old(View()), EvictFinish(i))
    {
      assert View().lines[i] == caches[i].View();
      EvictFinishKeeps(p, View(), i);
      SetCache(i, Invalid, caches[i].data, Free);
    }

    /** The directory needs the entry for another block: all sharers must give this one up. */
    method EvictDirectoryEntry()
      requires Valid() && lock == Unlocked && state != Invalid
      modifies this, dir, dir.sharer
      ensures Valid() && View() == Apply(p, old(View()), EvictEntry)
    {
      ghost var s := View();
      EvictEntryKeeps(p, s);
      var requests := InvalidateSharers(NONE);
      assert requests == s.entry.sharers;
      EverybodyKnown(p, s);
      lock := Clearing(requests, map[]);
      assert View().lines == s.lines;
    }

    method DirectoryEntryEvicted()
      requires Valid() && Enabled(p, View(), EntryEvicted)
      modifies this
      ensures Safe(p, old(View()), EntryEvicted) && Valid() && View() == Apply(p, old(View()), EntryEvicted)
    {
      ghost var s := View();
      EntryEvictedKeeps(p, s);
      state := Invalid;
      lock := Unlocked;
      assert View().lines == s.lines;
    }
  }

  /** The sharers below `k` other than `except` have been dropped. */
  ghost predicate Dropped(sharers: set<nat>, left: set<nat>, requests: set<nat>, k: nat, except: int) {
    && left == sharers - requests
    && forall j: nat :: j in requests <==> j < k && j in sharers && j != except
  }

  lemma DropOne(sharers: set<nat>, left: set<nat>, requests: set<nat>, k: nat, except: int)
    requires Dropped(sharers, left, requests, k, except)
    ensures k !in requests && (k in left <==> k in sharers)
    ensures if k in left && k != except then Dropped(sharers, left - {k}, requests + {k}, k + 1, except)
            else Dropped(sharers, left, requests, k + 1, except)
  {
  }

  lemma EverybodyKnown(p: Params, s: Coherence.State)
    requires Inv(p, s) && s.entry.lock == Unlocked
    ensures s.entry.owner != NONE ==> s.entry.owner in s.entry.sharers
  {
    if s.entry.owner != NONE {
      assert OwnerIs(s, s.entry.owner) && Known(s, s.entry.owner);
    }
  }

  lemma SameCount(pending: set<nat>, replies: map<nat, Reply>, k: nat, reply: Reply)
    requires k in pending && k !in replies
    ensures |pending - {k}| + |replies[k := reply]| == |pending| + |replies|
  {
  }

  lemma NothingLeft(pending: set<nat>, replies: map<nat, Reply>)
    ensures |pending| + |replies| == 0 <==> pending == {} && replies == map[]
  {
  }
}
