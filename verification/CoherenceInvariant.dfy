/** What the coherence protocol keeps between any two steps. */
module CoherenceInvariant {
  import opened Sequences
  import opened Coherence

  /** The state that a cache holds the block in as far as the rest of the system is
      concerned: a reply under way already counts, an eviction already acknowledged by
      the directory no longer does. */
  function Effective(line: Line): CacheState {
    match line.lock
    case Evicted => Invalid
    case Loaded(shared, _, _) => if shared then CacheState.Shared else Exclusive
    case Granted(_, _, _) => Modified
    case _ => line.state
  }

  function Holds(s: State, k: nat): CacheState
    requires k < |s.lines|
  {
    Effective(s.lines[k])
  }

  predicate Owning(state: CacheState) {
    state == Exclusive || state == Owned || state == Modified
  }

  /** A line's contents count unless it is invalid or its eviction is acknowledged. */
  predicate Live(line: Line) {
    line.state != Invalid && line.lock != Evicted
  }

  // ---- The parts ----

  predicate Shape(p: Params, s: State) {
    && |s.lines| == p.caches
    && |s.memory| == p.words && |s.latest| == p.words
    && forall k :: 0 <= k < |s.lines| ==> |s.lines[k].data| == p.words
  }

  /** The data under way to a load is the latest. */
  predicate FillOk(s: State, reply: Reply, received: Option<Block>) {
    && reply.size >= 8
    && (reply.size > 8 ==> reply.data == s.latest)
    && (reply.size == 8 ==> received == Some(s.latest))
  }

  predicate LineOk(p: Params, s: State, k: nat)
    requires k < |s.lines|
  {
    var line := s.lines[k];
    && (Live(line) ==> line.data == s.latest)
    && match line.lock
       case Free => true
       case Loading(received) =>
         line.state == Invalid && (received.Some? ==> received == Some(s.latest) && InService(s, k))
       case Loaded(_, reply, received) => line.state == Invalid && FillOk(s, reply, received)
       case Storing(word, _) => word < p.words && !(line.state in {Exclusive, Modified})
       case Granted(word, _, reply) =>
         && word < p.words && !(line.state in {Exclusive, Modified})
         && reply.size > 8 && |reply.data| == p.words
         && (p.words == 1 || Base(p, line, reply) == s.latest)
       case Evicting => line.state != Invalid
       case Evicted => true
       case Forwarding(to) =>
         && Owning(line.state)
         && s.entry.lock.Reading? && s.entry.lock.cache == to && s.entry.lock.peer == Asked(k)
  }

  function Pending(lock: EntryLock): set<nat> {
    if Waiting(lock) then lock.pending else {}
  }

  function Replies(lock: EntryLock): map<nat, Reply> {
    if Waiting(lock) then lock.replies else map[]
  }

  /** The directory knows exactly the holders: as sharers, or as caches it is about to
      invalidate. */
  predicate Known(s: State, k: nat)
    requires k < |s.lines|
  {
    Holds(s, k) != Invalid <==> k in s.entry.sharers || k in Pending(s.entry.lock)
  }

  predicate InRange(s: State) {
    && (forall k :: k in s.entry.sharers ==> k < |s.lines|)
    && (forall k :: k in Pending(s.entry.lock) ==> k < |s.lines|)
    && -1 <= s.entry.owner < |s.lines|
  }

  /** The owner is exactly the cache that holds the block in state E, O or M. */
  predicate OwnerIs(s: State, k: nat)
    requires k < |s.lines|
  {
    Owning(Holds(s, k)) <==> s.entry.owner == k
  }

  predicate OwnerExact(s: State) {
    forall k :: 0 <= k < |s.lines| ==> OwnerIs(s, k)
  }

  predicate EntryOk(p: Params, s: State) {
    && s.entry.state in {Invalid, Exclusive, Modified}
    && match s.entry.lock
       case Unlocked =>
         && OwnerExact(s)
         && (s.entry.state == Invalid ==> s.entry.sharers == {} && s.entry.owner == NONE)
       case Reading(i, peer, size) => s.entry.state != Invalid && ReadingOk(p, s, i, peer, size)
       case Writing(i, pending, replies) =>
         && s.entry.state != Invalid
         && i < |s.lines| && s.lines[i].lock.Storing?
         && i !in pending && s.entry.sharers <= {i}
         && (s.entry.owner == NONE || s.entry.owner == i)
         && OwnerIs(s, i)
       case Clearing(pending, replies) =>
         && s.entry.state != Invalid
         && s.entry.sharers == {} && s.entry.owner == NONE
  }

  predicate ReadingOk(p: Params, s: State, i: nat, peer: Peer, size: int) {
    && i < |s.lines| && s.lines[i].lock.Loading?
    && match peer
       case NoPeer =>
         size == p.bytes + 8 && s.entry.owner == NONE && OwnerExact(s) && s.lines[i].lock.received == None
       case Asked(k) =>
         && size == p.bytes + 8 && k < |s.lines| && k != i
         && s.entry.owner == k && OwnerExact(s)
         && (s.lines[k].lock.Forwarding? <==> s.lines[i].lock.received.Some?)
       case Answered(k, retain) =>
         && size == 8 && k < |s.lines| && k != i && s.entry.owner == k
         && s.lines[i].lock.received.Some?
         && Holds(s, k) == (if retain then Owned else CacheState.Shared)
         && forall j :: 0 <= j < |s.lines| && j != k ==> !Owning(Holds(s, j))
  }

  /** A reply with data has the latest, and comes from the only cache that could own the
      block. */
  predicate RepliesOk(s: State) {
    && Replies(s.entry.lock).Keys !! Pending(s.entry.lock)
    && forall k :: k in Replies(s.entry.lock) ==> ReplyOk(s, k)
  }

  predicate ReplyOk(s: State, k: nat)
    requires k in Replies(s.entry.lock)
  {
    var reply := Replies(s.entry.lock)[k];
    && reply.size >= 8
    && (reply.size > 8 ==> reply.data == s.latest && forall j :: 0 <= j < |s.lines| ==> !Owning(Holds(s, j)))
  }

  /** Single writer or several readers: beside a holder in E or M there is no other, and
      beside one in O there are only sharers. */
  predicate Compatible(a: CacheState, b: CacheState) {
    && (a in {Exclusive, Modified} ==> b == Invalid)
    && (a == Owned ==> b in {Invalid, CacheState.Shared})
  }

  predicate Single(s: State) {
    forall j, k :: 0 <= j < |s.lines| && 0 <= k < |s.lines| && j != k ==> Compatible(Holds(s, j), Holds(s, k))
  }

  /** Someone else than the memory is responsible for the latest data. */
  predicate DirtyLine(s: State, k: nat)
    requires k < |s.lines|
  {
    Live(s.lines[k]) && Dirty(s.lines[k].state)
  }

  predicate DirtyReply(s: State, k: nat)
    requires k in Replies(s.entry.lock)
  {
    Replies(s.entry.lock)[k].size > 8
  }

  /** Memory holds the latest unless a cache in state M or O does, or sends it. */
  predicate MemoryOk(s: State) {
    (forall k :: 0 <= k < |s.lines| ==> !DirtyLine(s, k)) &&
    (forall k :: k in Replies(s.entry.lock) ==> !DirtyReply(s, k)) ==>
      s.memory == s.latest
  }

  predicate Inv(p: Params, s: State) {
    && ValidParams(p)
    && Shape(p, s)
    && InRange(s)
    && (forall k :: 0 <= k < |s.lines| ==> LineOk(p, s, k) && Known(s, k))
    && EntryOk(p, s)
    && RepliesOk(s)
    && Single(s)
    && MemoryOk(s)
  }
}
