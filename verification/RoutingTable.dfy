/** The routing table of routing-table.c: creation from the links, the in-place
    Floyd-Warshall relaxation, the extraction of first hops and route updates. */
module RoutingTables {
  import opened Topology
  import opened Sequences
  import opened Routes
  import opened Dependencies

  class RoutingTable {
    const net: Net
    const dim: nat
    const entries: array2<Entry>
    var hasCycle: bool

    ghost predicate Shape()
    {
      dim == |net.nodes| && entries.Length0 == dim && entries.Length1 == dim && WellFormed(net)
    }

    /** The table as a value. */
    function View(): (t: Table)
      requires Shape()
      reads entries
      ensures IsTable(net, t)
      ensures forall u, v :: 0 <= u < dim && 0 <= v < dim ==> t[u][v] == entries[u, v]
    {
      seq(dim, u requires 0 <= u < dim && Shape() reads entries =>
        seq(dim, v requires 0 <= v < dim && Shape() reads entries => entries[u, v]))
    }

    /** The cost of reaching `v` from `u`, where staying is free. */
    ghost function D(u: nat, v: nat): int
      requires Shape() && u < dim && v < dim
      reads entries
    {
      if u == v then 0 else entries[u, v].cost
    }

    // ---- What holds of the costs throughout the relaxation ----

    ghost predicate SoundCost(u: nat, v: nat)
      requires Shape() && u < dim && v < dim
      reads entries
    {
      var c := entries[u, v].cost;
      if u == v then
        c == if SelfLink(net, u) then 1 else 0
      else
        && 1 <= c <= dim
        && (c < dim ==> exists w :: WalkFrom(net, w, u, v) && |w| - 1 == c)
    }

    /** No walk from `u` to `v` through nodes below `k` is cheaper than the cost. */
    ghost predicate Upper(u: nat, v: nat, k: nat)
      requires Shape() && u < dim && v < dim
      reads entries
    {
      forall w :: WalkFrom(net, w, u, v) && Interior(w, k) ==> D(u, v) <= |w| - 1
    }

    /** The bound that phase `k` of the relaxation establishes. */
    ghost predicate UpperAfter(u: nat, v: nat, k: nat)
      requires Shape() && u < dim && v < dim
      reads entries
    {
      Upper(u, v, k + 1)
    }

    /** The next node is `v` itself over one link, or a node on the way that is not
        necessarily a neighbour. */
    ghost predicate NextOk(u: nat, v: nat)
      requires Shape() && u < dim && v < dim
      reads entries
    {
      var e := entries[u, v];
      if u == v then
        if SelfLink(net, u) then e.next == u else e.next == NONE
      else
        && (e.next == NONE <==> e.cost == dim)
        && (e.next != NONE ==>
              && 0 <= e.next < dim && e.next != u && e.cost < dim
              && (if e.next == v then e.cost == 1 && Adjacent(net, u, v)
                  else D(u, e.next) + D(e.next, v) <= e.cost))
    }

    ghost predicate Sound()
      requires Shape()
      reads entries
    {
      && (forall u, v :: 0 <= u < dim && 0 <= v < dim ==> SoundCost(u, v))
      && (forall u, v :: 0 <= u < dim && 0 <= v < dim ==> NextOk(u, v))
    }

    /** The entry is that of the textbook recurrence after `k` steps. */
    ghost predicate Computed(k: nat, u: nat, v: nat)
      requires Shape() && u < dim && v < dim
      reads entries
    {
      entries[u, v].cost == Textbook(net, k, u, v).0 && entries[u, v].next == Textbook(net, k, u, v).1
    }

    /** Row by row, the entries before `(i, j)` are one step further. */
    ghost predicate Mixed(k: nat, i: nat, j: nat)
      requires Shape()
      reads entries
    {
      forall u: nat, v: nat :: u < dim && v < dim ==> MixedAt(k, i, j, u, v)
    }

    ghost predicate MixedAt(k: nat, i: nat, j: nat, u: nat, v: nat)
      requires Shape() && u < dim && v < dim
      reads entries
    {
      if u < i || (u == i && v < j) then Computed(k + 1, u, v) else Computed(k, u, v)
    }

    ghost predicate AllComputed(k: nat)
      requires Shape()
      reads entries
    {
      forall u: nat, v: nat :: u < dim && v < dim ==> Computed(k, u, v)
    }

    ghost predicate Relaxed(k: nat)
      requires Shape()
      reads entries
    {
      forall u, v :: 0 <= u < dim && 0 <= v < dim ==> Upper(u, v, k)
    }

    // ---- Creation ----

    ghost function InitialEntry(u: nat, v: nat): Entry
    {
      Entry(if u == v then 0 else dim, NONE, NONE)
    }

    /** The row of `u` after the first `k` of its output buffers have been entered. */
    ghost predicate Entered(u: nat, k: nat)
      requires Shape() && u < dim && k <= |Outputs(net, u)|
      reads entries
    {
      forall v :: 0 <= v < dim ==> EnteredAt(u, k, v)
    }

    ghost predicate EnteredAt(u: nat, k: nat, v: nat)
      requires Shape() && u < dim && v < dim && k <= |Outputs(net, u)|
      reads entries
    {
      if LeadsTo(u, k, v) then
        && entries[u, v].cost == 1
        && entries[u, v].next == v
        && entries[u, v].out != NONE
        && Linked(net, u, entries[u, v])
        && NewestOf(u, k, v, entries[u, v].out)
      else
        entries[u, v] == InitialEntry(u, v)
    }

    /** One of the first `k` output buffers leads to `v`. */
    ghost predicate LeadsTo(u: nat, k: nat, v: nat)
      requires k <= |Outputs(net, u)|
    {
      exists j :: 0 <= j < k && net.links[Outputs(net, u)[j]].dst == v
    }

    /** None of the first `k` output buffers that lead to `v` is newer. */
    ghost predicate NewestOf(u: nat, k: nat, v: nat, l: int)
      requires k <= |Outputs(net, u)|
    {
      forall j :: 0 <= j < k && net.links[Outputs(net, u)[j]].dst == v ==> Outputs(net, u)[j] <= l
    }

    constructor (net: Net)
      requires WellFormed(net)
      ensures this.net == net && Shape() && fresh(entries) && !hasCycle
    {
      this.net := net;
      dim := |net.nodes|;
      var n := |net.nodes|;
      entries := new Entry[n, n]((i, j) => Entry(0, NONE, NONE));
      hasCycle := false;
    }

    /** The one-hop table: a link costs one, staying costs nothing, and every other
        pair costs the table's dimension. */
    ghost predicate OneHop()
      requires Shape()
      reads entries
    {
      forall u, v :: 0 <= u < dim && 0 <= v < dim ==>
        if Adjacent(net, u, v) then
          && entries[u, v].cost == 1 && entries[u, v].next == v
          && entries[u, v].out != NONE && Linked(net, u, entries[u, v]) && LastLink(net, entries[u, v].out)
        else
          entries[u, v] == InitialEntry(u, v)
    }

    method Initiate()
      requires Shape()
      modifies entries
      ensures OneHop() && Sound() && Relaxed(0) && AllComputed(0)
    {
      for i := 0 to dim
        invariant forall u, v :: 0 <= u < i && 0 <= v < dim ==> entries[u, v] == InitialEntry(u, v)
      {
        for j := 0 to dim
          invariant forall u, v :: 0 <= u < i && 0 <= v < dim ==> entries[u, v] == InitialEntry(u, v)
          invariant forall v :: 0 <= v < j ==> entries[i, v] == InitialEntry(i, v)
        {
          entries[i, j] := Entry(if i == j then 0 else dim, NONE, NONE);
        }
      }
      for i := 0 to dim
        invariant forall u :: 0 <= u < i ==> Entered(u, |Outputs(net, u)|)
        invariant forall u, v :: i <= u < dim && 0 <= v < dim ==> entries[u, v] == InitialEntry(u, v)
      {
        label before:
        EnterRow(i);
        forall u: nat, v: nat | u < i && v < dim
          ensures EnteredAt(u, |Outputs(net, u)|, v)
        {
          assert old@before(Entered(u, |Outputs(net, u)|) && EnteredAt(u, |Outputs(net, u)|, v));
        }
      }
      EnteredIsOneHop();
      OneHopIsSound();
    }

    method EnterRow(i: nat)
      requires Shape() && i < dim
      requires forall v :: 0 <= v < dim ==> entries[i, v] == InitialEntry(i, v)
      modifies entries
      ensures Entered(i, |Outputs(net, i)|)
      ensures forall u, v :: 0 <= u < dim && 0 <= v < dim && u != i ==> entries[u, v] == old(entries[u, v])
    {
      var buffers := Outputs(net, i);
      for j := 0 to |buffers|
        invariant forall u, v :: 0 <= u < dim && 0 <= v < dim && u != i ==> entries[u, v] == old(entries[u, v])
        invariant Entered(i, j)
      {
        EnterOutput(i, j);
      }
    }

    method EnterOutput(i: nat, j: nat)
      requires Shape() && i < dim && j < |Outputs(net, i)| && Entered(i, j)
      modifies entries
      ensures Entered(i, j + 1)
      ensures forall u, v :: 0 <= u < dim && 0 <= v < dim && u != i ==> entries[u, v] == old(entries[u, v])
    {
      var buffers := Outputs(net, i);
      var l := buffers[j];
      var dst := net.links[l].dst;
      assert WellFormedLink(net, net.links[l]);
      OutputsInOrder(net, i, |net.links|);
      assert NewestOf(i, j + 1, dst, l) && LeadsTo(i, j + 1, dst);
      entries[i, dst] := Entry(1, dst, l);
      ghost var next := j + 1;
      forall v: nat | v < dim
        ensures EnteredAt(i, next, v)
      {
        if v != dst {
          assert old(EnteredAt(i, j, v));
          assert LeadsTo(i, next, v) <==> LeadsTo(i, j, v);
        }
      }
    }

    lemma EnteredIsOneHop()
      requires Shape()
      requires forall u :: 0 <= u < dim ==> Entered(u, |Outputs(net, u)|)
      ensures OneHop()
    {
      forall u, v | 0 <= u < dim && 0 <= v < dim
        ensures if Adjacent(net, u, v) then
                  && entries[u, v].cost == 1 && entries[u, v].next == v
                  && entries[u, v].out != NONE && Linked(net, u, entries[u, v]) && LastLink(net, entries[u, v].out)
                else
                  entries[u, v] == InitialEntry(u, v)
      {
        assert Entered(u, |Outputs(net, u)|) && EnteredAt(u, |Outputs(net, u)|, v);
        AdjacentHasOutput(net, u, v);
        assert Adjacent(net, u, v) <==> LeadsTo(u, |Outputs(net, u)|, v);
        if Adjacent(net, u, v) {
          NewestIsLast(u, v, entries[u, v].out);
        }
      }
    }

    lemma NewestIsLast(u: nat, v: nat, l: int)
      requires NewestOf(u, |Outputs(net, u)|, v, l)
      requires 0 <= l < |net.links| && net.links[l].src == u && net.links[l].dst == v
      ensures LastLink(net, l)
    {
      forall m: nat | l < m < |net.links| && net.links[m].src == u
        ensures net.links[m].dst != v
      {
        assert m in Outputs(net, u);
      }
    }

    lemma OneHopIsSound()
      requires Shape() && OneHop()
      ensures Sound() && Relaxed(0)
    {
      forall u, v | 0 <= u < dim && 0 <= v < dim
        ensures SoundCost(u, v) && NextOk(u, v) && Upper(u, v, 0)
      {
        InitialUpper(u, v);
        if Adjacent(net, u, v) {
          OneLink(net, u, v);
          assert |[u, v]| - 1 == 1;
        }
      }
    }

    lemma InitialUpper(u: nat, v: nat)
      requires Shape() && u < dim && v < dim
      requires if Adjacent(net, u, v) then entries[u, v].cost == 1 else entries[u, v] == InitialEntry(u, v)
      ensures Upper(u, v, 0)
    {
      forall w | WalkFrom(net, w, u, v) && Interior(w, 0)
        ensures D(u, v) <= |w| - 1
      {
        if u != v {
          NoInterior(w);
          WalkOfOne(net, w, u, v);
        }
      }
    }

    // ---- Relaxation ----

    /** The body of the innermost relaxation loop. */
    method RelaxEntry(k: nat, i: nat, j: nat)
      requires Shape() && k < dim && i < dim && j < dim
      requires Sound() && Relaxed(k) && Mixed(k, i, j)
      modifies entries
      ensures Sound() && Relaxed(k) && UpperAfter(i, j, k) && Mixed(k, i, j + 1)
      ensures forall u, v :: 0 <= u < dim && 0 <= v < dim && old(UpperAfter(u, v, k)) ==> UpperAfter(u, v, k)
    {
      var cost := entries[i, k].cost + entries[k, j].cost;
      assert SoundCost(i, k) && SoundCost(k, j) && SoundCost(i, j);
      assert NextOk(i, j);
      MixedEntries(k, i, j);
      if cost < entries[i, j].cost {
        LowerEntry(k, i, j, cost);
      }
      UpperStep(k, i, j);
      ghost var after := j + 1;
      forall u: nat, v: nat | u < dim && v < dim
        ensures MixedAt(k, i, after, u, v)
      {
        assert old(MixedAt(k, i, j, u, v));
      }
    }

    /** Whichever of them have been overwritten, the entries that the step reads are those
        of the step before. */
    lemma MixedEntries(k: nat, i: nat, j: nat)
      requires Shape() && k < dim && i < dim && j < dim && Mixed(k, i, j)
      ensures Computed(k, i, k) && Computed(k, k, j) && Computed(k, i, j)
    {
      assert MixedAt(k, i, j, i, k) && MixedAt(k, i, j, k, j) && MixedAt(k, i, j, i, j);
      OwnRowStays(net, k, i);
      OwnRowStays(net, k, j);
    }

    lemma CheaperWay(k: nat, i: nat, j: nat) returns (w: seq<nat>)
      requires Shape() && k < dim && i < dim && j < dim && Sound()
      requires entries[i, k].cost + entries[k, j].cost < entries[i, j].cost
      ensures i != k && k != j && i != j
      ensures WalkFrom(net, w, i, j) && |w| - 1 == entries[i, k].cost + entries[k, j].cost
      ensures entries[i, k].cost >= 1 && entries[k, j].cost >= 1
    {
      assert SoundCost(i, k) && SoundCost(k, j) && SoundCost(i, j);
      var a :| WalkFrom(net, a, i, k) && |a| - 1 == entries[i, k].cost;
      var b :| WalkFrom(net, b, k, j) && |b| - 1 == entries[k, j].cost;
      Concatenate(net, a, b, i, k, j);
      w := a + b[1..];
    }

    /** A way through `k` is cheaper. */
    method LowerEntry(k: nat, i: nat, j: nat, cost: int)
      requires Shape() && k < dim && i < dim && j < dim
      requires Sound() && Relaxed(k) && cost == entries[i, k].cost + entries[k, j].cost < entries[i, j].cost
      modifies entries
      ensures Sound() && Relaxed(k) && entries[i, j].cost == cost && entries[i, j].next == k
      ensures forall u, v :: 0 <= u < dim && 0 <= v < dim && (u != i || v != j) ==> entries[u, v] == old(entries[u, v])
      ensures entries[i, k] == old(entries[i, k]) && entries[k, j] == old(entries[k, j])
      ensures forall u, v, m: nat :: 0 <= u < dim && 0 <= v < dim && old(Upper(u, v, m)) ==> Upper(u, v, m)
    {
      ghost var w := CheaperWay(k, i, j);
      assert NextOk(i, j);
      entries[i, j] := entries[i, j].(cost := cost, next := k);
      assert SoundCost(i, j);
      assert forall u, v :: 0 <= u < dim && 0 <= v < dim ==> old(NextOk(u, v)) && D(u, v) <= old(D(u, v));
      forall u, v | 0 <= u < dim && 0 <= v < dim
        ensures SoundCost(u, v) && NextOk(u, v)
      {
        assert old(SoundCost(u, v) && NextOk(u, v));
      }
      forall u, v, m: nat | 0 <= u < dim && 0 <= v < dim && old(Upper(u, v, m))
        ensures Upper(u, v, m)
      {
        assert D(u, v) <= old(D(u, v));
      }
      assert Relaxed(k) by {
        forall u, v | 0 <= u < dim && 0 <= v < dim
          ensures Upper(u, v, k)
        {
          assert old(Upper(u, v, k));
        }
      }
    }

    /** Once the entry is no dearer than the way through `k`, it is no dearer than any
        walk through nodes below `k + 1`. */
    lemma UpperStep(k: nat, i: nat, j: nat)
      requires Shape() && k < dim && i < dim && j < dim
      requires Sound() && Relaxed(k)
      requires entries[i, j].cost <= entries[i, k].cost + entries[k, j].cost
      ensures UpperAfter(i, j, k)
    {
      assert Upper(i, j, k) && Upper(i, k, k) && Upper(k, j, k);
      assert SoundCost(i, j);
      forall w | WalkFrom(net, w, i, j) && Interior(w, k + 1)
        ensures D(i, j) <= |w| - 1
      {
        var split, a, b := SplitAt(net, w, k);
      }
    }

    /** One phase of the relaxation. */
    method RelaxThrough(k: nat)
      requires Shape() && k < dim && Sound() && Relaxed(k) && AllComputed(k)
      modifies entries
      ensures Sound() && Relaxed(k + 1) && AllComputed(k + 1)
    {
      assert Mixed(k, 0, 0) by {
        forall u: nat, v: nat | u < dim && v < dim
          ensures MixedAt(k, 0, 0, u, v)
        {
          assert Computed(k, u, v);
        }
      }
      for i := 0 to dim
        invariant Sound() && Relaxed(k) && Mixed(k, i, 0)
        invariant forall u, v :: 0 <= u < i && 0 <= v < dim ==> UpperAfter(u, v, k)
      {
        for j := 0 to dim
          invariant Sound() && Relaxed(k) && Mixed(k, i, j)
          invariant forall u, v :: 0 <= u < i && 0 <= v < dim ==> UpperAfter(u, v, k)
          invariant forall v :: 0 <= v < j ==> UpperAfter(i, v, k)
        {
          RelaxEntry(k, i, j);
        }
        ghost var row := i + 1;
        assert Mixed(k, row, 0) by {
          forall u: nat, v: nat | u < dim && v < dim
            ensures MixedAt(k, row, 0, u, v)
          {
            assert MixedAt(k, i, dim, u, v);
          }
        }
      }
      ghost var done := k + 1;
      assert AllComputed(done) by {
        forall u: nat, v: nat | u < dim && v < dim
          ensures Computed(done, u, v)
        {
          assert MixedAt(k, dim, 0, u, v);
        }
      }
      assert Relaxed(done) by {
        forall u, v | 0 <= u < dim && 0 <= v < dim
          ensures Upper(u, v, done)
        {
          assert UpperAfter(u, v, k);
        }
      }
    }

    // ---- Exact costs ----

    ghost predicate ExactCost(u: nat, v: nat)
      requires Shape() && u < dim && v < dim
      reads entries
    {
      if u == v then entries[u, v].cost == if SelfLink(net, u) then 1 else 0
      else if Reachable(net, u, v) then 1 <= entries[u, v].cost < dim && Distance(net, u, v, entries[u, v].cost)
      else entries[u, v].cost == dim
    }

    ghost predicate Exact()
      requires Shape()
      reads entries
    {
      forall u, v :: 0 <= u < dim && 0 <= v < dim ==> ExactCost(u, v)
    }

    /** After all phases the costs are the distances, and the dimension is a correct
        infinity: it can only mean that no walk exists. */
    lemma RelaxedIsExact()
      requires Shape() && Sound() && Relaxed(dim)
      ensures Exact()
    {
      forall u, v | 0 <= u < dim && 0 <= v < dim
        ensures ExactCost(u, v)
      {
        assert SoundCost(u, v) && Upper(u, v, dim);
        forall w | WalkFrom(net, w, u, v)
          ensures Interior(w, dim)
        {
        }
        if u != v && Reachable(net, u, v) {
          var w :| WalkFrom(net, w, u, v);
          var short := ShortWalk(net, w);
        }
      }
    }

    lemma Triangle(u: nat, m: nat, v: nat)
      requires Shape() && Exact() && u < dim && m < dim && v < dim
      ensures 0 <= D(u, v) <= dim
      ensures D(u, v) <= D(u, m) + D(m, v)
    {
      assert ExactCost(u, v) && ExactCost(u, m) && ExactCost(m, v);
      if u != m && m != v && u != v && Reachable(net, u, m) && Reachable(net, m, v) {
        var a :| WalkFrom(net, a, u, m) && |a| - 1 == entries[u, m].cost;
        var b :| WalkFrom(net, b, m, v) && |b| - 1 == entries[m, v].cost;
        Concatenate(net, a, b, u, m, v);
      }
    }

    // ---- First hops ----

    /** The buffer found for a pair: one of the row's own, leading one hop closer. */
    ghost predicate HopOk(u: nat, v: nat)
      requires Shape() && u < dim && v < dim
      reads entries
    {
      GoodHop(u, v, entries[u, v].out)
    }

    ghost predicate GoodHop(u: nat, v: nat, l: int)
      requires Shape() && u < dim && v < dim
      reads entries
    {
      if entries[u, v].next == NONE then
        l == NONE
      else
        && 0 <= l < |net.links| && net.links[l].src == u && net.links[l].dst < dim && Chosen(net, u, v, l)
        && (if u == v then net.links[l].dst == u
            else D(u, v) < dim && D(net.links[l].dst, v) == D(u, v) - 1)
    }

    /** Chase intermediate nodes until one is a direct neighbour. */
    method FirstHop(i: nat, j: nat) returns (node: nat)
      requires Shape() && i < dim && j < dim && Sound() && Exact() && AllComputed(dim)
      requires entries[i, j].next != NONE
      ensures node < dim && Adjacent(net, i, node)
      ensures exists n: nat :: Chased(net, i, Textbook(net, dim, i, j).1, node, n)
      ensures i == j ==> node == i
      ensures i != j ==> D(i, j) < dim && D(node, j) == D(i, j) - 1
    {
      assert NextOk(i, j) && SoundCost(i, j);
      if i == j {
        node := entries[i, j].next;
        assert SelfLink(net, i) && entries[i, node].cost == 1;
        assert Computed(dim, i, j) && Computed(dim, i, node);
        assert Chased(net, i, node, node, 0);
      } else {
        node := entries[i, j].next;
        assert Computed(dim, i, j);
        ghost var from, n: nat := node, 0;
        while entries[i, node].cost > 1
          invariant node < dim && node != i
          invariant D(i, node) + D(node, j) <= D(i, j)
          invariant forall last: nat, m: nat :: Chased(net, i, node, last, m) ==> Chased(net, i, from, last, n + m)
          decreases entries[i, node].cost
        {
          assert NextOk(i, node) && SoundCost(i, node) && ExactCost(i, j) && ExactCost(i, node);
          Triangle(node, j, j);
          ghost var was := node;
          node := entries[i, node].next;
          assert Computed(dim, i, was);
          forall last: nat, m: nat | Chased(net, i, node, last, m)
            ensures Chased(net, i, from, last, n + 1 + m)
          {
            assert Chased(net, i, was, last, 1 + m);
          }
          n := n + 1;
          Triangle(node, was, j);
          Triangle(node, was, was);
          assert SoundCost(node, was);
        }
        assert Computed(dim, i, node);
        assert Chased(net, i, node, node, 0);
        assert SoundCost(i, node) && ExactCost(i, node);
        ghost var w :| WalkFrom(net, w, i, node) && |w| - 1 == 1;
        WalkOfOne(net, w, i, node);
        Triangle(i, node, j);
      }
    }

    /** Look for the output buffer of `i` whose link leads to `node`. */
    method FindOutput(i: nat, node: nat) returns (l: nat)
      requires Shape() && i < dim && Adjacent(net, i, node)
      ensures l < |net.links| && net.links[l].src == i && net.links[l].dst == node && FirstLink(net, l)
    {
      var buffers := Outputs(net, i);
      ghost var link :| 0 <= link < |net.links| && net.links[link].src == i && net.links[link].dst == node;
      assert link in buffers;
      ghost var at :| 0 <= at < |buffers| && buffers[at] == link;
      var k := 0;
      while net.links[buffers[k]].dst != node
        invariant 0 <= k <= at
        invariant forall j :: 0 <= j < k ==> net.links[buffers[j]].dst != node
        decreases at - k
      {
        k := k + 1;
      }
      l := buffers[k];
      OldestOutput(net, i, k);
    }

    /** The pass that stores an output buffer in every entry with a route. */
    method StoreOutputs()
      requires Shape() && Sound() && Exact() && AllComputed(dim)
      modifies entries
      ensures Sound() && Exact() && AllComputed(dim)
      ensures forall u, v :: 0 <= u < dim && 0 <= v < dim ==> HopOk(u, v)
    {
      for i := 0 to dim
        invariant Sound() && Exact() && AllComputed(dim)
        invariant forall u, v :: 0 <= u < i && 0 <= v < dim ==> HopOk(u, v)
      {
        for j := 0 to dim
          invariant Sound() && Exact() && AllComputed(dim)
          invariant forall u, v :: 0 <= u < i && 0 <= v < dim ==> HopOk(u, v)
          invariant forall v :: 0 <= v < j ==> HopOk(i, v)
        {
          StoreOutput(i, j);
        }
      }
    }

    method StoreOutput(i: nat, j: nat)
      requires Shape() && Sound() && Exact() && AllComputed(dim) && i < dim && j < dim
      modifies entries
      ensures Sound() && Exact() && AllComputed(dim) && HopOk(i, j)
      ensures forall u, v :: 0 <= u < dim && 0 <= v < dim && old(HopOk(u, v)) ==> HopOk(u, v)
    {
      var out := LookForOutput(i, j);
      entries[i, j] := entries[i, j].(out := out);
      SoundIgnoresOutputs();
      ExactIgnoresOutputs();
      ComputedIgnoresOutputs();
    }

    method LookForOutput(i: nat, j: nat) returns (out: int)
      requires Shape() && Sound() && Exact() && AllComputed(dim) && i < dim && j < dim
      ensures GoodHop(i, j, out)
    {
      out := NONE;
      if entries[i, j].next != NONE {
        var node := FirstHop(i, j);
        out := FindOutput(i, node);
      }
    }

    // Sound and exact are about costs and next nodes, whatever the buffers are.

    twostate lemma ComputedIgnoresOutputs()
      requires Shape() && old(AllComputed(dim))
      requires forall u, v :: 0 <= u < dim && 0 <= v < dim ==>
        entries[u, v].cost == old(entries[u, v]).cost && entries[u, v].next == old(entries[u, v]).next
      ensures AllComputed(dim)
    {
      forall u: nat, v: nat | u < dim && v < dim
        ensures Computed(dim, u, v)
      {
        assert old(Computed(dim, u, v));
      }
    }

    twostate lemma SoundIgnoresOutputs()
      requires Shape() && old(Sound())
      requires forall u, v :: 0 <= u < dim && 0 <= v < dim ==>
        entries[u, v].cost == old(entries[u, v]).cost && entries[u, v].next == old(entries[u, v]).next
      ensures Sound()
    {
      forall u, v | 0 <= u < dim && 0 <= v < dim
        ensures SoundCost(u, v) && NextOk(u, v)
      {
        assert old(SoundCost(u, v) && NextOk(u, v));
      }
    }

    twostate lemma ExactIgnoresOutputs()
      requires Shape() && old(Exact())
      requires forall u, v :: 0 <= u < dim && 0 <= v < dim ==>
        entries[u, v].cost == old(entries[u, v]).cost && entries[u, v].next == old(entries[u, v]).next
      ensures Exact()
    {
      forall u, v | 0 <= u < dim && 0 <= v < dim
        ensures ExactCost(u, v)
      {
        assert old(ExactCost(u, v));
      }
    }

    /** The pass that makes every next node the end of the stored buffer's link. */
    method StoreNextHops()
      requires Shape() && Sound() && Exact() && AllComputed(dim)
      requires forall u, v :: 0 <= u < dim && 0 <= v < dim ==> HopOk(u, v)
      modifies entries
      ensures ShortestTable(net, View()) && TextbookTable(net, View())
    {
      ReplaceNextHops();
      forall u: nat, v: nat | u < dim && v < dim
        ensures TextbookEntry(net, u, v, View()[u][v])
      {
        assert old(HopOk(u, v) && Computed(dim, u, v));
      }
      assert forall u, v :: 0 <= u < dim && 0 <= v < dim ==> D(u, v) == old(D(u, v));
      forall u, v | 0 <= u < dim && 0 <= v < dim
        ensures u != v ==> ShortestEntry(net, u, v, View()[u][v])
        ensures u == v ==> DiagonalEntry(net, u, View()[u][v])
      {
        assert old(HopOk(u, v) && SoundCost(u, v) && NextOk(u, v) && ExactCost(u, v));
        var e := entries[u, v];
        if u != v && Reachable(net, u, v) {
          if e.next == v {
            assert WalkFrom(net, [v], v, v);
          } else {
            assert old(ExactCost(e.next, v));
          }
        }
      }
    }

    method ReplaceNextHops()
      requires Shape() && forall u, v :: 0 <= u < dim && 0 <= v < dim ==> HopOk(u, v)
      modifies entries
      ensures forall u, v :: 0 <= u < dim && 0 <= v < dim ==> entries[u, v] == NextHop(old(entries[u, v]))
    {
      for i := 0 to dim
        invariant forall u, v :: 0 <= u < dim && 0 <= v < dim ==>
          entries[u, v] == (if u < i then NextHop(old(entries[u, v])) else old(entries[u, v]))
      {
        for j := 0 to dim
          invariant forall u, v :: 0 <= u < dim && 0 <= v < dim ==>
            entries[u, v] == (if u < i || (u == i && v < j) then NextHop(old(entries[u, v])) else old(entries[u, v]))
        {
          var out := entries[i, j].out;
          assert old(HopOk(i, j));
          if out != NONE {
            entries[i, j] := entries[i, j].(next := net.links[out].dst);
          }
        }
      }
    }

    ghost function NextHop(e: Entry): Entry
    {
      if 0 <= e.out < |net.links| then e.(next := net.links[e.out].dst) else e
    }

    // ---- Cycle detection ----

    /** Whatever is white now was white before, with the same parent. */
    static ghost predicate StillWhite(color: seq<Color>, parent: seq<nat>, color': seq<Color>, parent': seq<nat>) {
      && |color'| == |color| && |parent'| == |parent|
      && forall p :: 0 <= p < |color'| && color'[p] == White ==>
           color[p] == White && (p < |parent'| ==> parent'[p] == parent[p])
    }

    /** The visit of one vertex. The ghost arguments are the vertices finished so far
        and the path from the root; the result extends the finished ones. */
    method Visit(ghost g: Graph, buffers: seq<nat>, color: array<Color>, parent: array<nat>, elem: nat,
                 ghost done: seq<nat>, ghost stack: seq<nat>)
      returns (ghost done': seq<nat>)
      requires Shape() && g == Graph(net, View(), buffers) && IsGraph(g) && !hasCycle
      requires Below(stack + [elem], |buffers|)
      requires MayVisit(g, color[..], parent[..], done, stack, elem)
      modifies this`hasCycle, color, parent
      ensures parent.Length == |buffers| && color.Length == |buffers| && color[elem] != White
      ensures hasCycle ==> Detected(g)
      ensures !hasCycle ==>
        && SearchState(g, color[..], done', stack) && Parents(g, parent[..], stack)
        && done <= done' && elem in done'
      ensures StillWhite(old(color[..]), old(parent[..]), color[..], parent[..])
      decreases Whites(color[..]), 0
    {
      EnterVertex(g, color[..], parent[..], done, stack, elem);
      if stack == [] {
        RootIsEarly(g, color[..], done, elem);
      }
      ghost var before := color[..];
      color[elem] := Gray;
      assert color[..] == before[elem := Gray];
      assert elem in Whites(before) && elem !in Whites(color[..]) && Whites(color[..]) < Whites(before);
      done' := VisitSuccessors(g, buffers, color, parent, elem, done, stack);
      if !hasCycle {
        LeaveVertex(g, color[..], done', stack, elem);
        ParentsPrefix(g, parent[..], stack, elem);
      }
      before := color[..];
      color[elem] := Black;
      assert color[..] == before[elem := Black];
      done' := done' + [elem];
    }

    method VisitSuccessors(ghost g: Graph, buffers: seq<nat>, color: array<Color>, parent: array<nat>, elem: nat,
                           ghost done: seq<nat>, ghost stack: seq<nat>)
      returns (ghost done': seq<nat>)
      requires Shape() && g == Graph(net, View(), buffers) && IsGraph(g) && !hasCycle
      requires Below(stack + [elem], |buffers|) && elem < |buffers|
      requires SearchState(g, color[..], done, stack + [elem]) && Parents(g, parent[..], stack + [elem])
      modifies this`hasCycle, color, parent
      ensures hasCycle ==> Detected(g)
      ensures !hasCycle ==>
        && SearchState(g, color[..], done', stack + [elem]) && Parents(g, parent[..], stack + [elem])
        && done <= done'
        && forall q: nat :: Edge(g, elem, q) ==> q in done' || (q == elem && stack == [])
      ensures StillWhite(old(color[..]), old(parent[..]), color[..], parent[..])
      decreases Whites(color[..]), 3
    {
      ghost var path := stack + [elem];
      done' := done;
      var node := net.links[buffers[elem]].src;
      var j := 0;
      while j < dim && !hasCycle
        invariant j <= dim
        invariant hasCycle ==> Detected(g)
        invariant !hasCycle ==> SearchState(g, color[..], done', path) && Parents(g, parent[..], path) && done <= done'
        invariant !hasCycle ==> forall i: nat, q: nat :: i < j && Leads(g, elem, q, i) ==> q in done' || (q == elem && stack == [])
        invariant StillWhite(old(color[..]), old(parent[..]), color[..], parent[..])
        decreases dim - j
      {
        if entries[node, j].out == buffers[elem] {
          assert Linked(net, node, View()[node][j]);
          var next := entries[node, j].next;
          done' := VisitAdjacent(g, buffers, color, parent, elem, next, j, done', stack);
        }
        j := j + 1;
      }
      if !hasCycle {
        forall q: nat | Edge(g, elem, q)
          ensures q in done' || (q == elem && stack == [])
        {
          var i: nat :| i < |g.table| && Continues(net, g.table, buffers[elem], buffers[q], i);
          assert Leads(g, elem, q, i);
        }
      }
    }

    /** Look in the list for the buffer that messages to `j` continue into. */
    method VisitAdjacent(ghost g: Graph, buffers: seq<nat>, color: array<Color>, parent: array<nat>, elem: nat,
                         next: nat, j: nat, ghost done: seq<nat>, ghost stack: seq<nat>)
      returns (ghost done': seq<nat>)
      requires Shape() && g == Graph(net, View(), buffers) && IsGraph(g) && !hasCycle
      requires Below(stack + [elem], |buffers|) && elem < |buffers| && next < dim && j < dim
      requires var e := entries[net.links[buffers[elem]].src, j]; e.out == buffers[elem] && e.next == next
      requires SearchState(g, color[..], done, stack + [elem]) && Parents(g, parent[..], stack + [elem])
      modifies this`hasCycle, color, parent
      ensures hasCycle ==> Detected(g)
      ensures !hasCycle ==>
        && SearchState(g, color[..], done', stack + [elem]) && Parents(g, parent[..], stack + [elem])
        && done <= done'
        && forall q: nat :: Leads(g, elem, q, j) ==> q in done' || (q == elem && stack == [])
      ensures StillWhite(old(color[..]), old(parent[..]), color[..], parent[..])
      decreases Whites(color[..]), 2
    {
      ghost var path := stack + [elem];
      assert path[|stack|] == elem;
      done' := done;
      var adjacent := entries[next, j].out;
      ghost var hit := NONE;
      for i := 0 to |buffers|
        invariant if hit == NONE then !hasCycle && forall k :: 0 <= k < i ==> buffers[k] != adjacent
                  else 0 <= hit < i && buffers[hit] == adjacent
        invariant hasCycle ==> Detected(g)
        invariant !hasCycle ==> SearchState(g, color[..], done', path) && Parents(g, parent[..], path) && done <= done'
        invariant !hasCycle && hit != NONE ==> hit in done' || (hit == elem && stack == [])
        invariant StillWhite(old(color[..]), old(parent[..]), color[..], parent[..])
      {
        if buffers[i] == adjacent {
          assert Continues(net, g.table, buffers[elem], buffers[i], j);
          done' := VisitEdge(g, buffers, color, parent, elem, i, done', stack);
          hit := i;
        }
      }
    }

    /** Follow one dependency: visit a white vertex, report a gray one. */
    method VisitEdge(ghost g: Graph, buffers: seq<nat>, color: array<Color>, parent: array<nat>, elem: nat,
                     i: nat, ghost done: seq<nat>, ghost stack: seq<nat>)
      returns (ghost done': seq<nat>)
      requires Shape() && g == Graph(net, View(), buffers) && IsGraph(g) && !hasCycle
      requires Below(stack + [elem], |buffers|) && Edge(g, elem, i)
      requires SearchState(g, color[..], done, stack + [elem]) && Parents(g, parent[..], stack + [elem])
      modifies this`hasCycle, color, parent
      ensures hasCycle ==> Detected(g)
      ensures !hasCycle ==>
        && SearchState(g, color[..], done', stack + [elem]) && Parents(g, parent[..], stack + [elem])
        && done <= done' && (i in done' || (i == elem && stack == []))
      ensures StillWhite(old(color[..]), old(parent[..]), color[..], parent[..])
      decreases Whites(color[..]), 1
    {
      ghost var path := stack + [elem];
      assert path[|path| - 1] == elem && path[0] == if stack == [] then elem else stack[0];
      done' := done;
      if color[i] == White {
        ghost var before := parent[..];
        parent[i] := buffers[elem];
        assert parent[..] == before[i := buffers[elem]];
        assert i !in path;
        assert Parents(g, parent[..], path + [i]);
        done' := Visit(g, buffers, color, parent, i, done', path);
      }
      if !hasCycle && color[i] == Gray {
        GrayClosesCycle(g, color[..], parent[..], done', path, i);
      }
      if color[i] == Gray && parent[i] != buffers[elem] {
        hasCycle := true;
      }
    }

    /** Set the flag if the search finds a cycle. The flag is never cleared, and once
        it is set nothing is searched. */
    method CycleDetection()
      requires Shape() && LinkedTable(net, View())
      modifies this`hasCycle
      ensures hasCycle == (old(hasCycle) || Detected(SearchGraph(net, View())))
      ensures NoSelfLinks(net) && !old(hasCycle) ==>
        IsGraph(SearchGraph(net, View())) && (hasCycle <==> Cyclic(SearchGraph(net, View())))
    {
      if NoSelfLinks(net) {
        DetectionIsExact(net, View());
      }
      SearchGraphIsGraph(net, View());
      var buffers := [];
      for i := 0 to dim
        invariant buffers == BufferOrder(net, i)
      {
        buffers := buffers + Outputs(net, i);
      }
      if !hasCycle {
        Search(SearchGraph(net, View()), buffers);
      }
    }

    method Search(ghost g: Graph, buffers: seq<nat>)
      requires Shape() && g == Graph(net, View(), buffers) && IsGraph(g) && !hasCycle
      modifies this`hasCycle
      ensures hasCycle <==> Detected(g)
    {
      var color := new Color[|buffers|](i => White);
      var parent := new nat[|buffers|](i requires 0 <= i < |buffers| => buffers[i]);
      ghost var done := [];
      assert forall p :: 0 <= p < |buffers| ==> color[..][p] == White;
      assert Between(g, color[..], parent[..], done, 0);
      var i := 0;
      while i < |buffers| && !hasCycle
        invariant i <= |buffers|
        invariant hasCycle ==> Detected(g)
        invariant color.Length == |buffers|
        invariant !hasCycle ==> Between(g, color[..], parent[..], done, i)
        decreases |buffers| - i
      {
        done := SearchFrom(g, buffers, color, parent, i, done);
        i := i + 1;
      }
      if !hasCycle {
        AllFinished(g, done);
      }
    }

    /** Start a search at vertex `i` unless it was visited already. */
    method SearchFrom(ghost g: Graph, buffers: seq<nat>, color: array<Color>, parent: array<nat>, i: nat,
                      ghost done: seq<nat>)
      returns (ghost done': seq<nat>)
      requires Shape() && g == Graph(net, View(), buffers) && IsGraph(g) && !hasCycle
      requires i < |buffers| && Between(g, color[..], parent[..], done, i)
      modifies this`hasCycle, color, parent
      ensures hasCycle ==> Detected(g)
      ensures !hasCycle ==> Between(g, color[..], parent[..], done', i + 1)
    {
      done' := done;
      if color[i] == White {
        BetweenMayVisit(g, color[..], parent[..], done, i);
        done' := Visit(g, buffers, color, parent, i, done, []);
      }
    }

    method FloydWarshall()
      requires Shape() && Sound() && Relaxed(0) && AllComputed(0)
      modifies this`hasCycle, entries
      ensures ShortestTable(net, View()) && LinkedTable(net, View()) && TextbookTable(net, View())
      ensures hasCycle == (old(hasCycle) || Detected(SearchGraph(net, View())))
    {
      for k := 0 to dim
        invariant Sound() && Relaxed(k) && AllComputed(k)
        invariant hasCycle == old(hasCycle)
      {
        RelaxThrough(k);
      }
      RelaxedIsExact();
      StoreOutputs();
      StoreNextHops();
      ShortestIsLinked(net, View());
      CycleDetection();
    }

    /** Replace one route by the one given in the configuration. Without a link to the
        next node the simulation stops. */
    method RouteUpdate(src: nat, dst: nat, next: nat) returns (ok: bool)
      requires Shape() && src < dim && dst < dim && next < dim && LinkedTable(net, View())
      modifies this`hasCycle, entries
      ensures ok <==> Adjacent(net, src, next)
      ensures LinkedTable(net, View())
      ensures forall u, v :: 0 <= u < dim && 0 <= v < dim && (u != src || v != dst) ==> entries[u, v] == old(entries[u, v])
      ensures entries[src, dst].cost == old(entries[src, dst].cost) && entries[src, dst].next == next
      ensures ok ==> entries[src, dst].out != NONE && LastLink(net, entries[src, dst].out)
      ensures ok ==> hasCycle == (old(hasCycle) || Detected(SearchGraph(net, View())))
    {
      ghost var t := View();
      var found := LookForLink(src, next);
      ok := found != NONE;
      entries[src, dst] := entries[src, dst].(next := next, out := found);
      forall u, v | 0 <= u < dim && 0 <= v < dim
        ensures Linked(net, u, View()[u][v])
      {
        assert Linked(net, u, t[u][v]);
      }
      if ok {
        CycleDetection();
      }
    }

    /** The last output buffer of `src` whose link leads to `next`. */
    method LookForLink(src: nat, next: nat) returns (found: int)
      requires Shape() && src < dim && next < dim
      ensures found == NONE <==> !Adjacent(net, src, next)
      ensures found != NONE ==> LastLink(net, found) && net.links[found].src == src && net.links[found].dst == next
    {
      found := NONE;
      var buffers := Outputs(net, src);
      OutputsInOrder(net, src, |net.links|);
      for k := 0 to |buffers|
        invariant found == NONE ==> forall i :: 0 <= i < k ==> net.links[buffers[i]].dst != next
        invariant found != NONE ==> 0 <= found < |net.links| && net.links[found].src == src && net.links[found].dst == next
        invariant forall i :: 0 <= i < k && buffers[i] > found ==> net.links[buffers[i]].dst != next
      {
        if net.links[buffers[k]].dst == next {
          found := buffers[k];
        }
      }
      AdjacentHasOutput(net, src, next);
      forall l: nat | found < l < |net.links| && net.links[l].src == src
        ensures net.links[l].dst != next
      {
        assert l in buffers;
      }
    }
  }
}
