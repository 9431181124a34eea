/** From a description of nodes and links to a running network: the table is computed, and
    what the handlers take for granted about it follows from the shape of the network. */
module NetBuild {
  import opened Sequences
  import opened Topology
  import opened Routes
  import opened Dependencies
  import opened RoutingTables
  import opened NetState
  import opened NetSim

  /** All links of the node lead to, and come from, the same other node. */
  ghost predicate OnlyNeighbour(net: Net, e: nat, s: nat) {
    forall l :: 0 <= l < |net.links| ==>
      && (net.links[l].src == e ==> net.links[l].dst == s)
      && (net.links[l].dst == e ==> net.links[l].src == s)
  }

  /** End nodes hang on one node each. */
  ghost predicate LeafEnds(net: Net) {
    forall e: nat :: e < |net.nodes| && net.nodes[e].kind == EndNode ==> exists s :: OnlyNeighbour(net, e, s)
  }

  /** A shortest route never passes through a node that hangs on one other node. */
  lemma NoDetour(net: Net, t: Table, u: nat, v: nat)
    requires WellFormed(net) && ShortestTable(net, t) && u < |t| && v < |t| && u != v
    requires t[u][v].out != NONE && t[u][v].next != v
    ensures 0 <= t[u][v].next < |net.nodes|
    ensures forall s :: !OnlyNeighbour(net, t[u][v].next, s)
  {
    var e := t[u][v];
    assert ShortestEntry(net, u, v, e);
    var n := e.next;
    assert Adjacent(net, u, n);
    forall s: nat
      ensures !OnlyNeighbour(net, n, s)
    {
      if OnlyNeighbour(net, n, s) {
        var w :| WalkFrom(net, w, n, v) && |w| - 1 == e.cost - 1;
        ShorterFromNeighbour(net, n, s, u, v, w);
      }
    }
  }

  /** Leaving a node through its only neighbour leads back to that neighbour. */
  lemma ShorterFromNeighbour(net: Net, n: nat, s: nat, u: nat, v: nat, w: seq<nat>)
    requires OnlyNeighbour(net, n, s) && Adjacent(net, u, n) && n != v && WalkFrom(net, w, n, v)
    ensures |w| >= 2 && WalkFrom(net, w[1..], u, v)
  {
    assert |w| >= 2;
    SubWalk(net, w, 1, |w| - 1);
    assert Adjacent(net, w[0], w[1]);
  }

  /** So only switches forward messages, whatever table of shortest routes is used. */
  lemma LeavesNeverForward(net: Net, t: Table)
    requires WellFormed(net) && NoSelfLinks(net) && LeafEnds(net) && ShortestTable(net, t)
    ensures LinkedTable(net, t) && ValidConfig(Config(net, t))
  {
    ShortestIsLinked(net, t);
    var c := Config(net, t);
    forall u: nat, v: nat | u < |t| && v < |t|
      ensures Forwards(c, u, v)
    {
      var e := t[u][v];
      if u == v {
        assert DiagonalEntry(net, u, e);
        assert !SelfLink(net, u);
      } else if e.out != NONE && e.next != v {
        NoDetour(net, t, u, v);
        assert net.nodes[e.next].kind != EndNode;
      }
    }
  }

  /** Compute the table and create the network. Both are as the handlers need them, and
      the table's flag tells whether its routes are free of cycles. */
  method Build(net: Net) returns (table: RoutingTable, network: Network)
    requires WellFormed(net) && NoSelfLinks(net) && LeafEnds(net)
    ensures table.Shape() && table.net == net && ShortestTable(net, table.View())
    ensures network.Valid({}) && network.config.net == net && network.config.table == table.View()
    ensures IsGraph(SearchGraph(net, table.View()))
    ensures table.hasCycle <==> Cyclic(SearchGraph(net, table.View()))
  {
    table := new RoutingTable(net);
    table.Initiate();
    table.FloydWarshall();
    DetectionIsExact(net, table.View());
    LeavesNeverForward(net, table.View());
    network := new Network(Config(net, table.View()));
  }
}
