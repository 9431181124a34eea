/** Routing tables as values: what the entries mean and where they lead. */
module Routes {
  import opened Topology
  import opened Sequences

  /** One table entry: the cost in hops, the next node and the output buffer (named
      by its link) towards a destination. */
  datatype Entry = Entry(cost: int, next: int, out: int)

  type Table = seq<seq<Entry>>

  ghost predicate IsTable(net: Net, t: Table) {
    && |t| == |net.nodes|
    && forall u :: 0 <= u < |t| ==> |t[u]| == |net.nodes|
  }

  /** The output buffers of node `u` among the first `k` links, oldest first. */
  function OutputsUpTo(net: Net, u: nat, k: nat): (s: seq<nat>)
    requires k <= |net.links|
    ensures forall l: nat :: l in s <==> l < k && net.links[l].src == u
    ensures forall j :: 0 <= j < |s| ==> s[j] < k && net.links[s[j]].src == u
    ensures Distinct(s)
  {
    if k == 0 then []
    else if net.links[k - 1].src == u then OutputsUpTo(net, u, k - 1) + [k - 1]
    else OutputsUpTo(net, u, k - 1)
  }

  /** The node's list of output buffers. */
  function Outputs(net: Net, u: nat): (s: seq<nat>)
    ensures forall l: nat :: l in s <==> l < |net.links| && net.links[l].src == u
    ensures forall j :: 0 <= j < |s| ==> s[j] < |net.links| && net.links[s[j]].src == u
    ensures Distinct(s)
  {
    OutputsUpTo(net, u, |net.links|)
  }

  /** Oldest first: in the order in which the links were added. */
  lemma {:induction false} OutputsInOrder(net: Net, u: nat, k: nat)
    requires k <= |net.links|
    ensures forall i, j :: 0 <= i < j < |OutputsUpTo(net, u, k)| ==> OutputsUpTo(net, u, k)[i] < OutputsUpTo(net, u, k)[j]
  {
    if k > 0 {
      OutputsInOrder(net, u, k - 1);
    }
  }

  lemma AdjacentHasOutput(net: Net, u: nat, v: nat)
    ensures Adjacent(net, u, v) <==>
            exists j :: 0 <= j < |Outputs(net, u)| && net.links[Outputs(net, u)[j]].dst == v
  {
    if Adjacent(net, u, v) {
      var l :| 0 <= l < |net.links| && net.links[l].src == u && net.links[l].dst == v;
      assert l in Outputs(net, u);
    }
  }

  /** An entry's buffer, when there is one, belongs to the row's node and its link
      leads to the entry's next node. */
  ghost predicate Linked(net: Net, u: nat, e: Entry) {
    e.out != NONE ==>
      && 0 <= e.out < |net.links|
      && net.links[e.out].src == u
      && net.links[e.out].dst == e.next
  }

  ghost predicate LinkedTable(net: Net, t: Table) {
    && IsTable(net, t)
    && forall u, v :: 0 <= u < |t| && 0 <= v < |t| ==> Linked(net, u, t[u][v])
  }

  /** No older link joins the same two nodes. */
  ghost predicate FirstLink(net: Net, l: int) {
    && 0 <= l < |net.links|
    && forall k :: 0 <= k < l ==> net.links[k].src != net.links[l].src || net.links[k].dst != net.links[l].dst
  }

  /** No later link joins the same two nodes. */
  ghost predicate LastLink(net: Net, l: int) {
    && 0 <= l < |net.links|
    && forall k :: l < k < |net.links| ==> net.links[k].src != net.links[l].src || net.links[k].dst != net.links[l].dst
  }

  lemma OldestOutput(net: Net, u: nat, k: nat)
    requires k < |Outputs(net, u)|
    requires forall j :: 0 <= j < k ==> net.links[Outputs(net, u)[j]].dst != net.links[Outputs(net, u)[k]].dst
    ensures FirstLink(net, Outputs(net, u)[k])
  {
    var s := Outputs(net, u);
    OutputsInOrder(net, u, |net.links|);
    forall m: nat | m < s[k] && net.links[m].src == u
      ensures net.links[m].dst != net.links[s[k]].dst
    {
      assert m in s;
      var j :| 0 <= j < |s| && s[j] == m;
    }
  }

  /** The entry from `u` to a different node `v` is a shortest route: the cost is the
      distance, the buffer is one of `u`'s, and its link leads one hop closer. An
      unreachable node costs the table's dimension. */
  ghost predicate ShortestEntry(net: Net, u: nat, v: nat, e: Entry) {
    if Reachable(net, u, v) then
      && 1 <= e.cost < |net.nodes|
      && Distance(net, u, v, e.cost)
      && e.out != NONE
      && Linked(net, u, e) && FirstLink(net, e.out)
      && 0 <= e.next < |net.nodes|
      && Distance(net, e.next, v, e.cost - 1)
    else
      e == Entry(|net.nodes|, NONE, NONE)
  }

  /** The entry from a node to itself: empty, unless the node has a link to itself. */
  ghost predicate DiagonalEntry(net: Net, u: nat, e: Entry) {
    if SelfLink(net, u) then
      e.cost == 1 && e.next == u && e.out != NONE && Linked(net, u, e) && FirstLink(net, e.out)
    else
      e == Entry(0, NONE, NONE)
  }

  ghost predicate ShortestTable(net: Net, t: Table) {
    && IsTable(net, t)
    && (forall u, v :: 0 <= u < |t| && 0 <= v < |t| && u != v ==>
          ShortestEntry(net, u, v, t[u][v]))
    && (forall u :: 0 <= u < |t| ==> DiagonalEntry(net, u, t[u][u]))
  }

  // ---- The textbook recurrence ----

  /** Cost and intermediate node from `u` to `v` through nodes below `k`: a way through
      one more node is taken only if it is cheaper. Every step reads the table of the step
      before. */
  ghost function Textbook(net: Net, k: nat, u: nat, v: nat): (int, int)
    decreases k
  {
    if k == 0 then
      if Adjacent(net, u, v) then (1, v) else if u == v then (0, NONE) else (|net.nodes|, NONE)
    else
      var first, second := Textbook(net, k - 1, u, k - 1), Textbook(net, k - 1, k - 1, v);
      var before := Textbook(net, k - 1, u, v);
      if first.0 + second.0 < before.0 then (first.0 + second.0, k - 1) else before
  }

  lemma {:induction false} NoNegativeCost(net: Net, k: nat, u: nat, v: nat)
    ensures Textbook(net, k, u, v).0 >= 0
    decreases k
  {
    if k > 0 {
      NoNegativeCost(net, k - 1, u, k - 1);
      NoNegativeCost(net, k - 1, k - 1, v);
      NoNegativeCost(net, k - 1, u, v);
    }
  }

  /** A step leaves its own row and column as they are, so that it may read them from the
      table that it overwrites. */
  lemma OwnRowStays(net: Net, k: nat, u: nat)
    ensures Textbook(net, k + 1, k, u) == Textbook(net, k, k, u)
    ensures Textbook(net, k + 1, u, k) == Textbook(net, k, u, k)
  {
    NoNegativeCost(net, k, k, k);
  }

  /** Chasing intermediate nodes of the finished recurrence from `from`, for at most `n`
      steps, ends at the direct neighbour `node` of `u`. */
  ghost predicate Chased(net: Net, u: nat, from: int, node: int, n: nat)
    decreases n
  {
    from >= 0 &&
    var e := Textbook(net, |net.nodes|, u, from);
    if e.0 <= 1 then node == from else n > 0 && Chased(net, u, e.1, node, n - 1)
  }

  /** Link `l` is the oldest to the neighbour where the chase for `v` ends. */
  ghost predicate Chosen(net: Net, u: nat, v: nat, l: int) {
    && FirstLink(net, l) && net.links[l].src == u
    && exists n: nat :: Chased(net, u, Textbook(net, |net.nodes|, u, v).1, net.links[l].dst, n)
  }

  /** The table is the one that the recurrence and the chase define, also among routes of
      equal cost. */
  ghost predicate TextbookTable(net: Net, t: Table) {
    IsTable(net, t) &&
    forall u: nat, v: nat :: u < |t| && v < |t| ==> TextbookEntry(net, u, v, t[u][v])
  }

  ghost predicate TextbookEntry(net: Net, u: nat, v: nat, e: Entry) {
    && e.cost == Textbook(net, |net.nodes|, u, v).0
    && if Textbook(net, |net.nodes|, u, v).1 == NONE then e.out == NONE && e.next == NONE
       else Chosen(net, u, v, e.out) && e.next == net.links[e.out].dst
  }

  /** Following the table's entries from `u` reaches `v` after exactly `k` links. */
  ghost predicate Hops(net: Net, t: Table, u: nat, v: nat, k: nat)
    requires LinkedTable(net, t)
    decreases k
  {
    if k == 0 then u == v
    else
      && u != v && u < |t| && v < |t|
      && t[u][v].out != NONE
      && net.links[t[u][v].out].dst < |t|
      && Hops(net, t, net.links[t[u][v].out].dst, v, k - 1)
  }

  lemma {:induction false} HopsUnique(net: Net, t: Table, u: nat, v: nat, j: nat, k: nat)
    requires LinkedTable(net, t) && Hops(net, t, u, v, j) && Hops(net, t, u, v, k)
    ensures j == k
    decreases j
  {
    if j > 0 && k > 0 {
      HopsUnique(net, t, net.links[t[u][v].out].dst, v, j - 1, k - 1);
    }
  }

  lemma ShortestIsLinked(net: Net, t: Table)
    requires ShortestTable(net, t)
    ensures LinkedTable(net, t)
  {
    forall u, v | 0 <= u < |t| && 0 <= v < |t|
      ensures Linked(net, u, t[u][v])
    {
      if u == v {
        assert DiagonalEntry(net, u, t[u][u]);
      } else {
        assert ShortestEntry(net, u, v, t[u][v]);
      }
    }
  }

  /** A shortest table leads from `u` to `v` over exactly as many links as the least
      walk has, for every reachable pair. */
  lemma {:induction false} ShortestTableDelivers(net: Net, t: Table, u: nat, v: nat, d: nat)
    requires ShortestTable(net, t) && LinkedTable(net, t)
    requires u < |t| && v < |t| && Distance(net, u, v, d)
    ensures Hops(net, t, u, v, d)
    ensures u != v ==> t[u][v].cost == d
    decreases d
  {
    if u == v {
      assert WalkFrom(net, [u], u, v);
      assert d <= 0;
    } else {
      var e := t[u][v];
      assert ShortestEntry(net, u, v, e);
      DistanceUnique(net, u, v, d, e.cost);
      ShortestTableDelivers(net, t, e.next, v, d - 1);
    }
  }

  /** Conversely, whatever the table leads to is reachable, so the table leads from
      `u` to another node `v` exactly when a walk does. */
  lemma {:induction false} HopsIsWalk(net: Net, t: Table, u: nat, v: nat, k: nat) returns (w: seq<nat>)
    requires LinkedTable(net, t) && u < |t| && Hops(net, t, u, v, k)
    ensures WalkFrom(net, w, u, v) && |w| - 1 == k
    decreases k
  {
    w := [u];
    if k > 0 {
      var l := t[u][v].out;
      assert Linked(net, u, t[u][v]);
      assert Adjacent(net, u, net.links[l].dst);
      OneLink(net, u, net.links[l].dst);
      var rest := HopsIsWalk(net, t, net.links[l].dst, v, k - 1);
      Concatenate(net, [u, net.links[l].dst], rest, u, net.links[l].dst, v);
      w := [u, net.links[l].dst] + rest[1..];
    }
  }
}
