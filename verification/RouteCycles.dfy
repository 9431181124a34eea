/** What cycles of buffers mean for the routes of a table, and where their detection
    fails (routing-table.c). */
module RouteCycles {
  import opened Sequences
  import opened Topology
  import opened Routes
  import opened Dependencies

  // ---- Links from a node to itself ----

  /** One switch with a link to itself, and the table that holds its route to itself. */
  function LoopNet(): Net {
    Net([Node(Switch, 1, 1, 1)], [Link(0, 0, 1)])
  }

  function LoopTable(): Table {
    [[Entry(1, 0, 0)]]
  }

  lemma LoopIsShortest()
    ensures WellFormed(LoopNet()) && ShortestTable(LoopNet(), LoopTable()) && LinkedTable(LoopNet(), LoopTable())
  {
    var net := LoopNet();
    assert net.links[0].src == 0 && net.links[0].dst == 0;
    assert SelfLink(net, 0);
    assert DiagonalEntry(net, 0, LoopTable()[0][0]);
    ShortestIsLinked(net, LoopTable());
  }

  lemma LoopIsGraph()
    ensures WellFormed(LoopNet()) && LinkedTable(LoopNet(), LoopTable())
    ensures IsGraph(SearchGraph(LoopNet(), LoopTable())) && SearchGraph(LoopNet(), LoopTable()).buffers == [0]
  {
    LoopIsShortest();
    SearchGraphIsGraph(LoopNet(), LoopTable());
    var buffers := SearchGraph(LoopNet(), LoopTable()).buffers;
    assert 0 in buffers;
    DistinctBelow(buffers, 1);
  }

  /** The cycle that the search overlooks: the vertex depends on itself, and the search
      starts there. */
  lemma SelfLinkOverlooked()
    ensures WellFormed(LoopNet()) && ShortestTable(LoopNet(), LoopTable())
    ensures var g := SearchGraph(LoopNet(), LoopTable());
      IsGraph(g) && Cyclic(g) && !Detected(g)
  {
    LoopIsShortest();
    LoopIsGraph();
    var g := SearchGraph(LoopNet(), LoopTable());
    assert Continues(LoopNet(), LoopTable(), 0, 0, 0);
    EdgeReaches(g, 0, 0);
    forall u: nat, v: nat
      ensures !MutuallyReachable(g, u, v) && !LateSelfLoop(g, u, v)
    {
      if Reaches(g, u, v) {
        ReachesBelow(g, u, v);
      }
    }
  }

  /** The table whose only route leads over a link from a node to itself. */
  function OnlyLoop(net: Net, l: nat): Table
    requires l < |net.links|
  {
    var n := |net.nodes|;
    var u := net.links[l].src;
    seq(n, i => seq(n, j => if i == u && j == u then Entry(1, u, l) else Entry(n, NONE, NONE)))
  }

  lemma OnlyLoopIsLinked(net: Net, l: nat)
    requires WellFormed(net) && l < |net.links| && net.links[l].src == net.links[l].dst
    ensures LinkedTable(net, OnlyLoop(net, l)) && IsGraph(SearchGraph(net, OnlyLoop(net, l)))
    ensures forall p, q :: Edge(SearchGraph(net, OnlyLoop(net, l)), p, q) ==> p == q
  {
    var t := OnlyLoop(net, l);
    assert WellFormedLink(net, net.links[l]);
    SearchGraphIsGraph(net, t);
    var g := SearchGraph(net, t);
    forall p: nat, q: nat | Edge(g, p, q)
      ensures p == q
    {
      assert Depends(net, t, g.buffers[p], g.buffers[q]);
    }
  }

  /** So every network with such a link has a table with a cycle that is not detected. */
  lemma EverySelfLinkOverlooked(net: Net, l: nat)
    requires WellFormed(net) && l < |net.links| && net.links[l].src == net.links[l].dst
    ensures LinkedTable(net, OnlyLoop(net, l)) && IsGraph(SearchGraph(net, OnlyLoop(net, l)))
    ensures Cyclic(SearchGraph(net, OnlyLoop(net, l))) && !Detected(SearchGraph(net, OnlyLoop(net, l)))
  {
    OnlyLoopIsLinked(net, l);
    var t := OnlyLoop(net, l);
    var g := SearchGraph(net, t);
    var p := VertexOf(net, t, l);
    assert Continues(net, t, l, l, net.links[l].src);
    EdgeReaches(g, p, p);
    forall u: nat, v: nat | u != v
      ensures !Reaches(g, u, v)
    {
      if Reaches(g, u, v) {
        var s :| PathFrom(g, s, u, v);
        StaysAt(g, s);
      }
    }
  }

  lemma {:induction false} StaysAt(g: Graph, s: seq<nat>)
    requires IsGraph(g) && Path(g, s) && s != []
    requires forall p, q :: Edge(g, p, q) ==> p == q
    ensures s[|s| - 1] == s[0]
    decreases |s|
  {
    if |s| > 1 {
      var n := |s| - 1;
      assert Edge(g, s[n - 1], s[n - 1 + 1]);
      assert Path(g, s[..n]) by {
        forall i | 0 <= i < n - 1
          ensures Edge(g, s[..n][i], s[..n][i + 1])
        {
          assert Edge(g, s[i], s[i + 1]);
        }
      }
      StaysAt(g, s[..n]);
    }
  }

  /** Detection is exact for the table. */
  ghost predicate ExactFor(net: Net, t: Table)
    requires WellFormed(net) && LinkedTable(net, t)
  {
    SearchGraphIsGraph(net, t);
    Detected(SearchGraph(net, t)) <==> Cyclic(SearchGraph(net, t))
  }

  /** Detection is exact for all tables of a network if and only if no link leads from a
      node to itself. */
  lemma ExactWithoutSelfLinks(net: Net)
    requires WellFormed(net)
    ensures NoSelfLinks(net) <==> forall t :: LinkedTable(net, t) ==> ExactFor(net, t)
  {
    if NoSelfLinks(net) {
      forall t | LinkedTable(net, t)
        ensures ExactFor(net, t)
      {
        DetectionIsExact(net, t);
      }
    } else {
      var l :| 0 <= l < |net.links| && net.links[l].src == net.links[l].dst;
      EverySelfLinkOverlooked(net, l);
      assert !ExactFor(net, OnlyLoop(net, l));
    }
  }

  // ---- Routes ----

  /** The node where `k` steps of the route from `u` to `v` lead, unless the route ends
      before. */
  function Follow(net: Net, t: Table, u: nat, v: nat, k: nat): (w: nat)
    requires LinkedTable(net, t) && WellFormed(net) && u < |t| && v < |t|
    ensures w < |t|
    decreases k
  {
    var e := t[u][v];
    if k == 0 || u == v || e.out == NONE then u
    else
      assert Linked(net, u, e) && WellFormedLink(net, net.links[e.out]);
      Follow(net, t, e.next, v, k - 1)
  }

  /** The route has arrived, or there is no link to follow. */
  predicate Ends(t: Table, u: nat, v: nat)
    requires u < |t| && v < |t[u]|
  {
    u == v || t[u][v].out == NONE
  }

  lemma PathInFront(g: Graph, p: nat, rest: seq<nat>)
    requires IsGraph(g) && Path(g, rest) && rest != [] && Edge(g, p, rest[0])
    ensures Path(g, [p] + rest)
  {
    forall i | 0 <= i < |rest|
      ensures Edge(g, ([p] + rest)[i], ([p] + rest)[i + 1])
    {
      if i > 0 {
        assert Edge(g, rest[i - 1], rest[i - 1 + 1]);
      }
    }
  }

  /** The buffers that a route of more than `k` links goes through first. */
  lemma {:induction false} RouteBuffers(net: Net, t: Table, g: Graph, u: nat, v: nat, k: nat) returns (chain: seq<nat>)
    requires LinkedTable(net, t) && WellFormed(net) && u < |t| && v < |t|
    requires g == SearchGraph(net, t) && IsGraph(g)
    requires !Ends(t, Follow(net, t, u, v, k), v)
    ensures |chain| == k + 1 && Below(chain, |g.buffers|) && Path(g, chain)
    ensures t[u][v].out == g.buffers[chain[0]]
    decreases k
  {
    var e := t[u][v];
    assert Linked(net, u, e);
    assert !Ends(t, u, v);
    var p := VertexOf(net, t, e.out);
    if k == 0 {
      chain := [p];
    } else {
      assert WellFormedLink(net, net.links[e.out]);
      var rest := RouteBuffers(net, t, g, e.next, v, k - 1);
      assert Continues(net, t, e.out, g.buffers[rest[0]], v);
      PathInFront(g, p, rest);
      chain := [p] + rest;
    }
  }

  /** In a table without cycles, also one that has been updated, no route goes round for
      ever: within as many links as there are buffers it arrives, or meets an entry
      without a buffer. */
  lemma RoutesEnd(net: Net, t: Table, u: nat, v: nat)
    requires WellFormed(net) && LinkedTable(net, t) && u < |t| && v < |t|
    requires IsGraph(SearchGraph(net, t)) && !Detected(SearchGraph(net, t)) && NoSelfLinks(net)
    ensures Ends(t, Follow(net, t, u, v, |SearchGraph(net, t).buffers|), v)
  {
    var g := SearchGraph(net, t);
    if !Ends(t, Follow(net, t, u, v, |g.buffers|), v) {
      var chain := RouteBuffers(net, t, g, u, v, |g.buffers|);
      LongChain(g, chain);
      DetectionIsExact(net, t);
    }
  }

  // ---- The flag is never cleared ----

  /** Three switches in a row, with links both ways between the first two. */
  function RowNet(): Net {
    Net(seq(3, _ => Node(Switch, 1, 1, 1)), seq(3, l => RowLink(l)))
  }

  function RowLink(l: int): Link {
    if l == 0 then Link(0, 1, 1) else if l == 1 then Link(1, 0, 1) else Link(1, 2, 1)
  }

  /** Its table, with entry `e` from the second switch to the third. */
  function RowTable(e: Entry): Table {
    seq(3, u => seq(3, v => RowEntry(e, u, v)))
  }

  function RowEntry(e: Entry, u: int, v: int): Entry {
    if u == v then Entry(0, NONE, NONE)
    else if u == 0 then Entry(v, 1, 0)
    else if u == 1 then if v == 0 then Entry(1, 0, 1) else e
    else Entry(3, NONE, NONE)
  }

  lemma RowIsWellFormed()
    ensures WellFormed(RowNet()) && NoSelfLinks(RowNet())
  {
  }

  lemma RowIsLinked(e: Entry)
    requires e == Entry(1, 0, 1) || e == Entry(1, 2, 2)
    ensures LinkedTable(RowNet(), RowTable(e))
  {
    forall u: nat, v: nat | u < 3 && v < 3
      ensures Linked(RowNet(), u, RowEntry(e, u, v))
    {
    }
  }

  lemma RowIsGraph(e: Entry)
    requires e == Entry(1, 0, 1) || e == Entry(1, 2, 2)
    ensures WellFormed(RowNet()) && NoSelfLinks(RowNet()) && LinkedTable(RowNet(), RowTable(e))
    ensures IsGraph(SearchGraph(RowNet(), RowTable(e)))
  {
    RowIsWellFormed();
    RowIsLinked(e);
    SearchGraphIsGraph(RowNet(), RowTable(e));
  }

  /** Which buffer continues into which, when the second switch sends back. */
  lemma RowDependsBack()
    ensures WellFormed(RowNet()) && LinkedTable(RowNet(), RowTable(Entry(1, 0, 1)))
    ensures Depends(RowNet(), RowTable(Entry(1, 0, 1)), 0, 1) && Depends(RowNet(), RowTable(Entry(1, 0, 1)), 1, 0)
  {
    RowIsWellFormed();
    RowIsLinked(Entry(1, 0, 1));
    var t := RowTable(Entry(1, 0, 1));
    assert t[0][2] == Entry(2, 1, 0) && t[1][2] == Entry(1, 0, 1);
    assert RowNet().links[0] == RowLink(0) && RowNet().links[1] == RowLink(1);
    assert Continues(RowNet(), t, 0, 1, 2) && Continues(RowNet(), t, 1, 0, 2);
  }

  /** The same when it sends on. */
  lemma RowDependsOn(l: nat, m: nat)
    requires l < 3 && m < 3
    ensures WellFormed(RowNet()) && LinkedTable(RowNet(), RowTable(Entry(1, 2, 2)))
    ensures Depends(RowNet(), RowTable(Entry(1, 2, 2)), l, m) ==> l == 0 && m == 2
  {
    RowIsGraph(Entry(1, 2, 2));
    forall j: nat | j < 3 && Continues(RowNet(), RowTable(Entry(1, 2, 2)), l, m, j)
      ensures l == 0 && m == 2
    {
      RowContinues(l, m, j);
    }
  }

  lemma RowContinues(l: nat, m: nat, j: nat)
    requires WellFormed(RowNet()) && LinkedTable(RowNet(), RowTable(Entry(1, 2, 2)))
    requires l < 3 && j < 3 && Continues(RowNet(), RowTable(Entry(1, 2, 2)), l, m, j)
    ensures l == 0 && m == 2
  {
    var t := RowTable(Entry(1, 2, 2));
    assert forall u :: 0 <= u < 3 ==> t[u][j] == RowEntry(Entry(1, 2, 2), u, j);
  }

  /** With the second switch sending back what is meant for the third, the routes go
      round. An update to its direct link removes the only cycle; the flag, which an
      update never clears, stays set. */
  lemma UpdateRemovesCycle()
    ensures var net, before := RowNet(), RowTable(Entry(1, 0, 1));
      var after := before[1 := before[1][2 := Entry(1, 2, 2)]];
      && WellFormed(net) && NoSelfLinks(net) && Adjacent(net, 1, 2)
      && LinkedTable(net, before) && IsGraph(SearchGraph(net, before)) && Detected(SearchGraph(net, before))
      && LinkedTable(net, after) && IsGraph(SearchGraph(net, after)) && !Cyclic(SearchGraph(net, after))
  {
    var net, before, after := RowNet(), RowTable(Entry(1, 0, 1)), RowTable(Entry(1, 2, 2));
    forall u: nat | u < 3
      ensures after[u] == before[1 := before[1][2 := Entry(1, 2, 2)]][u]
    {
      assert forall v: nat :: v < 3 ==> after[u][v] == RowEntry(Entry(1, 2, 2), u, v);
    }
    assert after == before[1 := before[1][2 := Entry(1, 2, 2)]];
    assert net.links[2].src == 1 && net.links[2].dst == 2;
    RowGoesRound();
    RowStraight();
  }

  lemma RowGoesRound()
    ensures var net, t := RowNet(), RowTable(Entry(1, 0, 1));
      && WellFormed(net) && LinkedTable(net, t) && IsGraph(SearchGraph(net, t)) && Detected(SearchGraph(net, t))
  {
    var e := Entry(1, 0, 1);
    RowIsGraph(e);
    var g := SearchGraph(RowNet(), RowTable(e));
    var p := VertexOf(RowNet(), RowTable(e), 0);
    var q := VertexOf(RowNet(), RowTable(e), 1);
    RowDependsBack();
    EdgeReaches(g, p, q);
    EdgeReaches(g, q, p);
    assert MutuallyReachable(g, p, q);
  }

  lemma RowStraight()
    ensures var net, t := RowNet(), RowTable(Entry(1, 2, 2));
      && NoSelfLinks(net) && LinkedTable(net, t) && IsGraph(SearchGraph(net, t)) && !Cyclic(SearchGraph(net, t))
  {
    var e := Entry(1, 2, 2);
    RowIsGraph(e);
    var g := SearchGraph(RowNet(), RowTable(e));
    forall p: nat
      ensures !Reaches(g, p, p)
    {
      if Reaches(g, p, p) {
        var s :| PathFrom(g, s, p, p);
        assert Edge(g, s[0], s[0 + 1]);
        RowDependsOn(g.buffers[s[0]], g.buffers[s[1]]);
        if |s| > 2 {
          assert Edge(g, s[1], s[1 + 1]);
          RowDependsOn(g.buffers[s[1]], g.buffers[s[2]]);
        }
      }
    }
  }
}
