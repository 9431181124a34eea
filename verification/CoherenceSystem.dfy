/** Many blocks, in caches and a directory of finitely many sets and ways: a miss takes a
    way of its set, and only when one is free. Blocks do not disturb each other. */
module CoherenceSystem {
  import opened Coherence
  import opened CoherenceInvariant
  import opened CoherenceRuns
  import opened Sequences

  /** The directory has `sets` sets of `assoc` entries, each first-level cache
      `cacheSets` sets of `cacheAssoc` lines. */
  datatype Layout = Layout(sets: nat, assoc: nat, cacheSets: nat, cacheAssoc: nat)

  /** The state of every block. */
  type System = seq<State>

  datatype Move = Move(block: nat, action: Action)

  predicate ValidLayout(l: Layout) {
    l.sets > 0 && l.cacheSets > 0
  }

  function SetOf(n: nat, b: nat): nat
    requires n > 0
  {
    b % n
  }

  /** The way of a line is taken while the block is there or on its way. */
  predicate Taken(line: Line) {
    line.state != Invalid || line.lock != Free
  }

  /** The blocks with an entry in set `x` of the directory. */
  ghost function Entries(l: Layout, sys: System, x: nat): set<nat>
    requires ValidLayout(l)
  {
    set b: nat | b < |sys| && SetOf(l.sets, b) == x && sys[b].entry.state != Invalid
  }

  /** The blocks with a line in set `x` of cache `i`. */
  ghost function Lines(l: Layout, sys: System, i: nat, x: nat): set<nat>
    requires ValidLayout(l)
  {
    set b: nat | b < |sys| && SetOf(l.cacheSets, b) == x && i < |sys[b].lines| && Taken(sys[b].lines[i])
  }

  /** The action needs a new entry in the directory. */
  predicate NeedsEntry(s: State, a: Action) {
    (a.ReadLock? || a.WriteLock? || a.EvictProcess?) && s.entry.state == Invalid
  }

  /** The action needs a new line in cache `i`. */
  predicate NeedsLine(s: State, a: Action, i: nat) {
    (a.LoadMiss? || a.StoreMiss?) && a.i == i && i < |s.lines| && !Taken(s.lines[i])
  }

  /** There is a free way wherever the action needs one. */
  ghost predicate Room(l: Layout, sys: System, b: nat, a: Action)
    requires ValidLayout(l) && b < |sys|
  {
    && (NeedsEntry(sys[b], a) ==> |Entries(l, sys, SetOf(l.sets, b))| < l.assoc)
    && forall i: nat {:trigger NeedsLine(sys[b], a, i)} ::
         NeedsLine(sys[b], a, i) ==> |Lines(l, sys, i, SetOf(l.cacheSets, b))| < l.cacheAssoc
  }

  ghost predicate Allowed(p: Params, l: Layout, sys: System, m: Move)
    requires ValidLayout(l)
  {
    && m.block < |sys|
    && Enabled(p, sys[m.block], m.action) && Safe(p, sys[m.block], m.action)
    && Room(l, sys, m.block, m.action)
  }

  function Moved(p: Params, sys: System, m: Move): System
    requires m.block < |sys| && Enabled(p, sys[m.block], m.action) && Safe(p, sys[m.block], m.action)
  {
    sys[m.block := Apply(p, sys[m.block], m.action)]
  }

  ghost predicate SystemLeads(p: Params, l: Layout, sys: System, moves: seq<Move>, end: System)
    requires ValidLayout(l)
    decreases |moves|
  {
    if moves == [] then sys == end
    else Allowed(p, l, sys, moves[0]) && SystemLeads(p, l, Moved(p, sys, moves[0]), moves[1..], end)
  }

  /** Every block starts in memory only. */
  ghost predicate SystemInitial(p: Params, sys: System) {
    ValidParams(p) && forall b :: 0 <= b < |sys| ==> |sys[b].memory| == p.words && sys[b] == Initial(p, sys[b].memory)
  }

  ghost predicate Fits(l: Layout, sys: System)
    requires ValidLayout(l)
  {
    && (forall x: nat {:trigger Entries(l, sys, x)} :: |Entries(l, sys, x)| <= l.assoc)
    && (forall i: nat, x: nat {:trigger Lines(l, sys, i, x)} :: |Lines(l, sys, i, x)| <= l.cacheAssoc)
  }

  // ---- Only a miss takes a way ----

  lemma EntryTaken(p: Params, s: State, a: Action)
    requires Enabled(p, s, a) && Safe(p, s, a)
    ensures Apply(p, s, a).entry.state != Invalid ==> s.entry.state != Invalid || NeedsEntry(s, a) || a.WriteFinish?
    ensures a.WriteFinish? ==> s.entry.state != Invalid
  {
  }

  lemma LineTaken(p: Params, s: State, a: Action, i: nat)
    requires Enabled(p, s, a) && Safe(p, s, a)
    ensures |Apply(p, s, a).lines| == |s.lines|
    ensures i < |s.lines| && Taken(Apply(p, s, a).lines[i]) ==> Taken(s.lines[i]) || NeedsLine(s, a, i)
  {
  }

  lemma AtMostOneMore(before: set<nat>, after: set<nat>, b: nat)
    requires after <= before + {b}
    ensures |after| <= |before| + 1
    ensures b in before ==> |after| <= |before|
    ensures b !in after ==> |after| <= |before|
  {
    if b in before {
      SubsetSize(after, before);
    } else if b !in after {
      SubsetSize(after, before);
    } else {
      SubsetSize(after, before + {b});
    }
  }

  lemma MoveFits(p: Params, l: Layout, sys: System, m: Move)
    requires ValidLayout(l) && Fits(l, sys) && Allowed(p, l, sys, m)
    ensures Fits(l, Moved(p, sys, m))
  {
    var b, a := m.block, m.action;
    var end := Moved(p, sys, m);
    EntryTaken(p, sys[b], a);
    forall x: nat
      ensures |Entries(l, end, x)| <= l.assoc
    {
      AtMostOneMore(Entries(l, sys, x), Entries(l, end, x), b);
    }
    forall i: nat, x: nat
      ensures |Lines(l, end, i, x)| <= l.cacheAssoc
    {
      LineTaken(p, sys[b], a, i);
      assert NeedsLine(sys[b], a, i) ==> |Lines(l, sys, i, SetOf(l.cacheSets, b))| < l.cacheAssoc;
      AtMostOneMore(Lines(l, sys, i, x), Lines(l, end, i, x), b);
    }
  }

  lemma OneMore(before: set<nat>, after: set<nat>, b: nat)
    requires b !in before && after == before + {b}
    ensures |after| == |before| + 1
  {
  }

  /** Among sets that are not overfull, a step finds the room that it needs exactly when it
      leaves no set overfull. */
  lemma RoomIsExact(p: Params, l: Layout, sys: System, m: Move)
    requires ValidLayout(l) && Fits(l, sys) && m.block < |sys|
    requires Enabled(p, sys[m.block], m.action) && Safe(p, sys[m.block], m.action)
    ensures Room(l, sys, m.block, m.action) <==> Fits(l, Moved(p, sys, m))
  {
    var b, a := m.block, m.action;
    var end := Moved(p, sys, m);
    if Room(l, sys, b, a) {
      MoveFits(p, l, sys, m);
    }
    if Fits(l, end) {
      if NeedsEntry(sys[b], a) {
        EntryAdded(p, l, sys, m);
      }
      forall i: nat | NeedsLine(sys[b], a, i)
        ensures |Lines(l, sys, i, SetOf(l.cacheSets, b))| < l.cacheAssoc
      {
        LineAdded(p, l, sys, m, i);
      }
    }
  }

  lemma EntryAdded(p: Params, l: Layout, sys: System, m: Move)
    requires ValidLayout(l) && m.block < |sys| && NeedsEntry(sys[m.block], m.action)
    requires Enabled(p, sys[m.block], m.action) && Safe(p, sys[m.block], m.action)
    ensures var x := SetOf(l.sets, m.block);
      |Entries(l, Moved(p, sys, m), x)| == |Entries(l, sys, x)| + 1
  {
    var x := SetOf(l.sets, m.block);
    OneMore(Entries(l, sys, x), Entries(l, Moved(p, sys, m), x), m.block);
  }

  lemma LineAdded(p: Params, l: Layout, sys: System, m: Move, i: nat)
    requires ValidLayout(l) && m.block < |sys| && NeedsLine(sys[m.block], m.action, i)
    requires Enabled(p, sys[m.block], m.action) && Safe(p, sys[m.block], m.action)
    ensures var x := SetOf(l.cacheSets, m.block);
      |Lines(l, Moved(p, sys, m), i, x)| == |Lines(l, sys, i, x)| + 1
  {
    var x := SetOf(l.cacheSets, m.block);
    OneMore(Lines(l, sys, i, x), Lines(l, Moved(p, sys, m), i, x), m.block);
  }

  // ---- Runs ----

  ghost predicate AllReachable(p: Params, sys: System) {
    forall b :: 0 <= b < |sys| ==> Reachable(p, sys[b])
  }

  /** In every run of the system, every block is in a state that it reaches on its own,
      so that whatever holds of every run of one block holds of each block here; and no
      set holds more than its ways. */
  lemma {:induction false} BlocksAreIndependent(p: Params, l: Layout, sys: System, moves: seq<Move>, end: System)
    requires ValidLayout(l) && SystemLeads(p, l, sys, moves, end)
    requires AllReachable(p, sys) && Fits(l, sys)
    ensures |end| == |sys| && AllReachable(p, end) && Fits(l, end)
    decreases |moves|
  {
    if moves != [] {
      var m := moves[0];
      Next(p, sys[m.block], m.action);
      MoveFits(p, l, sys, m);
      BlocksAreIndependent(p, l, Moved(p, sys, m), moves[1..], end);
    }
  }

  lemma StartFits(p: Params, l: Layout, sys: System)
    requires ValidLayout(l) && SystemInitial(p, sys)
    ensures AllReachable(p, sys) && Fits(l, sys)
  {
    forall b | 0 <= b < |sys|
      ensures Reachable(p, sys[b])
    {
      InitialReachable(p, sys[b].memory);
    }
    forall x: nat
      ensures |Entries(l, sys, x)| <= l.assoc
    {
      assert Entries(l, sys, x) == {};
    }
    forall i: nat, x: nat
      ensures |Lines(l, sys, i, x)| <= l.cacheAssoc
    {
      assert Lines(l, sys, i, x) == {};
    }
  }

  /** The accessible copies of a block are one writer's, or one owner's beside sharers; an
      unlocked entry knows exactly the holders and the owner; and with faithful parameters
      the data is what the last store left. */
  ghost predicate Coherent(p: Params, s: State) {
    && (forall j: nat, k: nat :: Accessible(s, j) && Accessible(s, k) && j != k ==>
          && s.lines[j].state !in {Modified, Exclusive}
          && (s.lines[j].state == Owned ==> s.lines[k].state == CacheState.Shared))
    && (s.entry.lock == Unlocked ==> forall k: nat :: k < |s.lines| ==>
          && (k in s.entry.sharers <==> Holds(s, k) != Invalid)
          && (s.entry.owner == k <==> Owning(Holds(s, k))))
    && (Faithful(p) ==> DataOk(s))
  }

  /** Coherence of the whole system, in every run and for every block. */
  lemma SystemIsCoherent(p: Params, l: Layout, sys: System, moves: seq<Move>, end: System, b: nat)
    requires ValidLayout(l) && SystemInitial(p, sys) && SystemLeads(p, l, sys, moves, end) && b < |end|
    ensures Fits(l, end) && Coherent(p, end[b])
  {
    StartFits(p, l, sys);
    BlocksAreIndependent(p, l, sys, moves, end);
    BlockIsCoherent(p, end[b]);
  }

  lemma BlockIsCoherent(p: Params, s: State)
    requires Reachable(p, s)
    ensures Coherent(p, s)
  {
    forall j: nat, k: nat | Accessible(s, j) && Accessible(s, k) && j != k
      ensures s.lines[j].state !in {Modified, Exclusive}
      ensures s.lines[j].state == Owned ==> s.lines[k].state == CacheState.Shared
    {
      SingleWriter(p, s, j, k);
    }
    if s.entry.lock == Unlocked {
      forall k: nat | k < |s.lines|
        ensures k in s.entry.sharers <==> Holds(s, k) != Invalid
        ensures s.entry.owner == k <==> Owning(Holds(s, k))
      {
        DirectoryIsExact(p, s, k);
      }
    }
    if Faithful(p) {
      DataIsLatest(p, s);
    }
  }
}
