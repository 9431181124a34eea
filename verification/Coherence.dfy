/** The NMOESI protocol between several first-level caches and the directory of one main
    memory, for one block, as a state machine on values. A transaction takes several
    steps: it locks the line, reaches the directory, locks the entry, reaches the other
    caches one by one, and returns; steps of different transactions interleave freely
    between the locks. */
module Coherence {
  import opened Sequences

  datatype Option<T> = None | Some(value: T)

  datatype CacheState = Invalid | Shared | Exclusive | Owned | Modified

  /** The contents of a block, word by word. */
  type Block = seq<int>

  /** `caches` first-level caches; blocks of `words` words that take `bytes` bytes in a
      message; `install` tells whether a cache that still holds the block copies the
      reply to its write request over it, or keeps its own copy. */
  datatype Params = Params(caches: nat, words: nat, bytes: nat, install: bool)

  predicate ValidParams(p: Params) {
    p.words >= 1 && p.bytes >= 1
  }

  /** A reply of eight bytes is a bare acknowledgement; only a longer one has data. */
  datatype Reply = Reply(size: int, data: Block)

  /** Who holds the lock of a cache line: a load or store with its request or its reply
      under way, an eviction, or a request from below that forwards the block. */
  datatype Lock =
    | Free
    | Loading(received: Option<Block>)
    | Loaded(shared: bool, reply: Reply, received: Option<Block>)
    | Storing(word: nat, value: int)
    | Granted(word: nat, value: int, reply: Reply)
    | Evicting
    | Evicted
    | Forwarding(to: nat)

  datatype Line = Line(state: CacheState, data: Block, lock: Lock)

  /** How far the read request to the owner has come. */
  datatype Peer = NoPeer | Asked(owner: nat) | Answered(owner: nat, retain: bool)

  /** Who holds the lock of the directory entry, and what it waits for: the caches still
      to be invalidated and the replies still under way. */
  datatype EntryLock =
    | Unlocked
    | Reading(cache: nat, peer: Peer, size: int)
    | Writing(cache: nat, pending: set<nat>, replies: map<nat, Reply>)
    | Clearing(pending: set<nat>, replies: map<nat, Reply>)

  /** The memory's own state for a block in its directory is E or M; a block without an
      entry is in state I there, and in no cache. */
  datatype Entry = Entry(state: CacheState, sharers: set<nat>, owner: int, lock: EntryLock)

  /** `latest` records what the last store left, wherever that is. */
  datatype State = State(lines: seq<Line>, entry: Entry, memory: Block, latest: Block)

  datatype Action =
    | LoadHit(i: nat)
    | LoadMiss(i: nat)
    | ReadRefused(i: nat)
    | ReadLock(i: nat)
    | Forward(k: nat)
    | Answer(k: nat)
    | ReadFinish
    | LoadFill(i: nat)
    | StoreHit(i: nat, word: nat, value: int)
    | StoreMiss(i: nat, word: nat, value: int)
    | WriteRefused(i: nat)
    | WriteLock(i: nat)
    | Invalidate(k: nat)
    | InvalidateFinish(k: nat)
    | WriteFinish
    | StoreFill(i: nat)
    | Evict(i: nat)
    | EvictRefused(i: nat)
    | EvictProcess(i: nat)
    | EvictFinish(i: nat)
    | EvictEntry
    | EntryEvicted

  // ---- Small pieces of the handlers ----

  function SetLine(s: State, i: nat, line: Line): State
    requires i < |s.lines|
  {
    s.(lines := s.lines[i := line])
  }

  function SetLock(s: State, i: nat, lock: Lock): State
    requires i < |s.lines|
  {
    SetLine(s, i, s.lines[i].(lock := lock))
  }

  function Update(b: Block, word: nat, value: int): (r: Block)
  {
    if word < |b| then b[word := value] else b
  }

  predicate Dirty(state: CacheState) {
    state == Modified || state == Owned
  }

  /** What the receiver of a reply holds afterwards: the reply's data if there is any. */
  function Received(reply: Reply, otherwise: Block): Block {
    if reply.size > 8 then reply.data else otherwise
  }

  /** Finding the entry of a block that has none gives it a fresh one, in state E. */
  function Found(e: Entry): Entry {
    if e.state == Invalid then e.(state := Exclusive) else e
  }

  /** The reply of a cache that gives up its copy: with data if it was newer. */
  function GiveUp(p: Params, line: Line): Reply {
    Reply(if Dirty(line.state) then p.bytes + 8 else 8, line.data)
  }

  predicate Waiting(lock: EntryLock) {
    lock.Writing? || lock.Clearing?
  }

  function Performed(p: Params, lock: EntryLock, k: nat, line: Line): EntryLock
    requires Waiting(lock)
  {
    lock.(pending := lock.pending - {k}, replies := lock.replies[k := GiveUp(p, line)])
  }

  function Accepted(lock: EntryLock, k: nat): EntryLock
    requires Waiting(lock) && k in lock.replies
  {
    lock.(replies := lock.replies - {k})
  }

  /** Everyone the directory knows except `i`, with a request under way to each. */
  function Others(e: Entry, i: int): set<nat> {
    set k | k in e.sharers && k != i
  }

  /** What the line holds when its write request is granted. */
  function Base(p: Params, line: Line, reply: Reply): Block {
    if line.state == Invalid || p.install then Received(reply, line.data) else line.data
  }

  // ---- When an action can happen ----

  predicate Enabled(p: Params, s: State, a: Action) {
    match a
    case LoadHit(i) => i < |s.lines| && s.lines[i].lock == Free && s.lines[i].state != Invalid
    case LoadMiss(i) => i < |s.lines| && s.lines[i].lock == Free && s.lines[i].state == Invalid
    case ReadRefused(i) => i < |s.lines| && s.lines[i].lock.Loading? && s.entry.lock != Unlocked && !InService(s, i)
    case ReadLock(i) => i < |s.lines| && s.lines[i].lock.Loading? && s.entry.lock == Unlocked
    case Forward(k) =>
      k < |s.lines| && s.lines[k].lock == Free && s.entry.lock.Reading? && s.entry.lock.peer == Asked(k)
    case Answer(k) => k < |s.lines| && s.lines[k].lock.Forwarding?
    case ReadFinish => s.entry.lock.Reading? && !s.entry.lock.peer.Asked?
    case LoadFill(i) => i < |s.lines| && s.lines[i].lock.Loaded?
    case StoreHit(i, word, _) =>
      && i < |s.lines| && word < p.words && s.lines[i].lock == Free
      && s.lines[i].state in {Modified, Exclusive}
    case StoreMiss(i, word, _) =>
      && i < |s.lines| && word < p.words && s.lines[i].lock == Free
      && s.lines[i].state !in {Modified, Exclusive}
    case WriteRefused(i) => i < |s.lines| && s.lines[i].lock.Storing? && s.entry.lock != Unlocked && !InService(s, i)
    case WriteLock(i) => i < |s.lines| && s.lines[i].lock.Storing? && s.entry.lock == Unlocked
    case Invalidate(k) =>
      k < |s.lines| && s.lines[k].lock == Free && Waiting(s.entry.lock) && k in s.entry.lock.pending
    case InvalidateFinish(k) => Waiting(s.entry.lock) && k in s.entry.lock.replies
    case WriteFinish => s.entry.lock.Writing? && s.entry.lock.pending == {} && s.entry.lock.replies == map[]
    case StoreFill(i) => i < |s.lines| && s.lines[i].lock.Granted?
    case Evict(i) => i < |s.lines| && s.lines[i].lock == Free && s.lines[i].state != Invalid
    case EvictRefused(i) => i < |s.lines| && s.lines[i].lock == Evicting && s.entry.lock != Unlocked
    case EvictProcess(i) => i < |s.lines| && s.lines[i].lock == Evicting && s.entry.lock == Unlocked
    case EvictFinish(i) => i < |s.lines| && s.lines[i].lock == Evicted
    case EvictEntry => s.entry.lock == Unlocked && s.entry.state != Invalid
    case EntryEvicted => s.entry.lock.Clearing? && s.entry.lock.pending == {} && s.entry.lock.replies == map[]
  }

  /** The request of cache `i` is the one that holds the entry. */
  predicate InService(s: State, i: nat) {
    (s.entry.lock.Reading? || s.entry.lock.Writing?) && s.entry.lock.cache == i
  }

  // ---- What the code asserts on the way ----

  predicate Safe(p: Params, s: State, a: Action)
    requires Enabled(p, s, a)
  {
    match a
    case ReadLock(i) =>
      && (s.entry.state == Invalid ==> s.entry.sharers == {} && s.entry.owner == NONE)
      && s.entry.owner != i
      && (s.entry.owner == NONE || 0 <= s.entry.owner < |s.lines|)
    case Answer(k) =>
      && s.lines[k].state !in {Invalid, Shared}
      && s.entry.lock.Reading? && s.entry.lock.peer == Asked(k)
      && s.entry.lock.size - p.bytes >= 8
      && s.entry.lock.cache == s.lines[k].lock.to < |s.lines|
      && s.lines[s.entry.lock.cache].lock.Loading?
    case Forward(k) =>
      && s.lines[k].state !in {Invalid, Shared}
      && s.entry.lock.cache < |s.lines| && s.entry.lock.cache != k
      && s.lines[s.entry.lock.cache].lock.Loading?
    case ReadFinish =>
      && s.entry.lock.cache < |s.lines| && s.lines[s.entry.lock.cache].lock.Loading?
      && s.entry.lock.size >= 8
    case LoadFill(i) => s.lines[i].lock.reply.size == 8 ==> s.lines[i].lock.received.Some?
    case WriteLock(i) => s.entry.state == Invalid ==> s.entry.sharers == {} && s.entry.owner == NONE
    case Invalidate(k) => s.lines[k].state != Invalid
    case WriteFinish =>
      && s.entry.lock.cache < |s.lines| && s.lines[s.entry.lock.cache].lock.Storing?
      && s.entry.state in {Modified, Exclusive}
      && |s.entry.sharers + {s.entry.lock.cache}| == 1
    case EvictProcess(i) => s.entry.state != Invalid && i in s.entry.sharers
    case EntryEvicted => s.entry.sharers == {} && s.entry.owner == NONE
    case _ => true
  }

  // ---- What the handlers do ----

  function LockForRead(p: Params, s: State, i: nat): State {
    var e := Found(s.entry);
    var peer := if e.owner >= 0 && e.owner != i then Asked(e.owner) else NoPeer;
    s.(entry := e.(lock := Reading(i, peer, p.bytes + 8)))
  }

  /** The owner has sent its copy to the peer, and goes to O or S. */
  function AnswerRead(p: Params, s: State, k: nat): State
    requires k < |s.lines| && s.entry.lock.Reading?
  {
    var dirty := Dirty(s.lines[k].state);
    var t := SetLine(s, k, s.lines[k].(state := if dirty then Owned else Shared, lock := Free));
    t.(entry := s.entry.(lock := s.entry.lock.(peer := Answered(k, dirty), size := s.entry.lock.size - p.bytes)))
  }

  /** Update owner and sharers, unlock, and reply. */
  function FinishRead(s: State): State
    requires s.entry.lock.Reading? && s.entry.lock.cache < |s.lines| && s.lines[s.entry.lock.cache].lock.Loading?
  {
    var e := s.entry;
    var i := e.lock.cache;
    var retain := e.lock.peer.Answered? && e.lock.peer.retain;
    var owner := if !retain && e.owner != i then NONE else e.owner;
    var sharers := e.sharers + {i};
    var shared := |sharers| > 1;
    SetLock(s, i, Loaded(shared, Reply(e.lock.size, s.memory), s.lines[i].lock.received))
      .(entry := e.(owner := if shared then owner else i, sharers := sharers, lock := Unlocked))
  }

  function FillLoad(s: State, i: nat): State
    requires i < |s.lines| && s.lines[i].lock.Loaded?
  {
    var lock := s.lines[i].lock;
    var data := Received(lock.reply, if lock.received.Some? then lock.received.value else s.lines[i].data);
    SetLine(s, i, Line(if lock.shared then Shared else Exclusive, data, Free))
  }

  /** Clear all other sharers and the owner among them, and send each a write request. */
  function LockForWrite(s: State, i: nat): State {
    var e := Found(s.entry);
    s.(entry := e.(
         sharers := e.sharers - Others(e, i),
         owner := if e.owner in Others(e, i) then NONE else e.owner,
         lock := Writing(i, Others(e, i), map[])))
  }

  function InvalidateLine(p: Params, s: State, k: nat): State
    requires k < |s.lines| && Waiting(s.entry.lock)
  {
    SetLine(s, k, s.lines[k].(state := Invalid))
      .(entry := s.entry.(lock := Performed(p, s.entry.lock, k, s.lines[k])))
  }

  function AcceptReply(s: State, k: nat): State
    requires Waiting(s.entry.lock) && k in s.entry.lock.replies
  {
    s.(entry := s.entry.(lock := Accepted(s.entry.lock, k)),
       memory := Received(s.entry.lock.replies[k], s.memory))
  }

  /** The requester becomes the only sharer and the owner. */
  function FinishWrite(p: Params, s: State): State
    requires s.entry.lock.Writing? && s.entry.lock.cache < |s.lines| && s.lines[s.entry.lock.cache].lock.Storing?
  {
    var i := s.entry.lock.cache;
    var lock := s.lines[i].lock;
    SetLock(s, i, Granted(lock.word, lock.value, Reply(p.bytes + 8, s.memory)))
      .(entry := Entry(Exclusive, s.entry.sharers + {i}, i, Unlocked))
  }

  function WriteWord(s: State, i: nat, base: Block, word: nat, value: int): State
    requires i < |s.lines|
  {
    SetLine(s, i, Line(Modified, Update(base, word, value), Free)).(latest := Update(s.latest, word, value))
  }

  function ProcessEvict(s: State, i: nat): State
    requires i < |s.lines|
  {
    var line := s.lines[i];
    var e := Found(s.entry);
    SetLock(s, i, Evicted)
      .(entry := e.(state := if Dirty(line.state) then Modified else e.state,
                    sharers := e.sharers - {i},
                    owner := if e.owner == i then NONE else e.owner),
        memory := if Dirty(line.state) then line.data else s.memory)
  }

  function Apply(p: Params, s: State, a: Action): State
    requires Enabled(p, s, a) && Safe(p, s, a)
  {
    match a
    case LoadHit(i) => s
    case LoadMiss(i) => SetLock(s, i, Loading(None))
    case ReadRefused(i) => SetLock(s, i, Free)
    case ReadLock(i) => LockForRead(p, s, i)
    case Forward(k) =>
      var i := s.entry.lock.cache;
      SetLock(SetLock(s, k, Forwarding(i)), i, Loading(Some(s.lines[k].data)))
    case Answer(k) => AnswerRead(p, s, k)
    case ReadFinish => FinishRead(s)
    case LoadFill(i) => FillLoad(s, i)
    case StoreHit(i, word, value) => WriteWord(s, i, s.lines[i].data, word, value)
    case StoreMiss(i, word, value) => SetLock(s, i, Storing(word, value))
    case WriteRefused(i) => SetLock(s, i, Free)
    case WriteLock(i) => LockForWrite(s, i)
    case Invalidate(k) => InvalidateLine(p, s, k)
    case InvalidateFinish(k) => AcceptReply(s, k)
    case WriteFinish => FinishWrite(p, s)
    case StoreFill(i) =>
      var lock := s.lines[i].lock;
      WriteWord(s, i, Base(p, s.lines[i], lock.reply), lock.word, lock.value)
    case Evict(i) => SetLock(s, i, Evicting)
    case EvictRefused(i) => SetLock(s, i, Free)
    case EvictProcess(i) => ProcessEvict(s, i)
    case EvictFinish(i) => SetLine(s, i, s.lines[i].(state := Invalid, lock := Free))
    case EvictEntry =>
      s.(entry := s.entry.(sharers := {}, owner := NONE, lock := Clearing(s.entry.sharers, map[])))
    case EntryEvicted => s.(entry := Entry(Invalid, {}, NONE, Unlocked))
  }

  // ---- Runs ----

  function Zeros(n: nat): Block {
    seq(n, _ => 0)
  }

  /** No cache holds the block, and the directory has no entry for it. */
  function Initial(p: Params, memory: Block): State {
    State(seq(p.caches, _ => Line(Invalid, Zeros(p.words), Free)), Entry(Invalid, {}, NONE, Unlocked), memory, memory)
  }

  /** The actions lead from one state to the other, none of them failing an assertion. */
  ghost predicate Leads(p: Params, s: State, actions: seq<Action>, t: State)
    decreases |actions|
  {
    if actions == [] then s == t
    else
      && Enabled(p, s, actions[0]) && Safe(p, s, actions[0])
      && Leads(p, Apply(p, s, actions[0]), actions[1..], t)
  }

  /** A state that some run reaches. */
  ghost predicate Reachable(p: Params, s: State) {
    ValidParams(p) && exists memory, actions :: |memory| == p.words && Leads(p, Initial(p, memory), actions, s)
  }
}
